/** What the operators on two 64-bit words do to the 128-bit number the words stand for. */
module UInt128Words {
  import opened Words

  function Value(hi: u64, lo: u64): (v: nat)
    ensures v < B128
  {
    hi * B64 + lo
  }

  // Every number below 2^128 has one pair of words.
  lemma WordsOf(v: nat)
    requires v < B128
    ensures v / B64 < B64 && v % B64 < B64 && Value(v / B64, v % B64) == v
  {
  }

  lemma WordsAre(h: u64, l: u64)
    ensures Value(h, l) / B64 == h && Value(h, l) % B64 == l
  {
  }

  // ---------- Addition with carry ----------

  lemma Wrapped(x: nat, m: nat)
    requires x < 2 * m
    ensures m > 0 && x % m == if x < m then x else x - m
  {
    if x < m {
      DivModUnique(x, m, 0, x);
    } else {
      DivModUnique(x, m, 1, x - m);
    }
  }

  function Carry(before: u64, after: u64): u64 {
    if after < before then 1 else 0
  }

  lemma AddWords(ah: u64, al: u64, bh: u64, bl: u64)
    ensures var low := (al + bl) % B64;
            Value((ah + (bh + Carry(al, low)) % B64) % B64, low) == (Value(ah, al) + Value(bh, bl)) % B128
  {
    Wrapped(al + bl, B64);
    var low := (al + bl) % B64;
    Wrapped(bh + Carry(al, low), B64);
    Wrapped(ah + (bh + Carry(al, low)) % B64, B64);
    Wrapped(Value(ah, al) + Value(bh, bl), B128);
  }

  lemma NegateWords(h: u64, l: u64)
    ensures (Value(Not64(h), Not64(l)) + 1) % B128 == (B128 - Value(h, l)) % B128
  {
  }

  // ---------- Shifts ----------

  lemma SplitWord(n: nat)
    requires n <= 64
    ensures Pow2(n) * Pow2(64 - n) == B64
  {
    hide Pow2;
    Pow2Add(n, 64 - n);
    Pow2Of64();
  }

  // ~(uint64_t(-1) >> n) selects the n high bits.
  lemma HighMask(n: nat)
    requires n <= 64
    ensures Shr(B64 - 1, n) < B64 && Not64(Shr(B64 - 1, n)) == Shl(Pow2(n) - 1, 64 - n)
  {
    hide Pow2;
    var p, q := Pow2(n), Pow2(64 - n);
    SplitWord(n);
    assert B64 - 1 == p * (q - 1) + (p - 1);
    DivModUnique(B64 - 1, p, q - 1, p - 1);
    ProductSign(q, p - 1);
    assert (p - 1) * q == B64 - q;
  }

  lemma HighBits(lo: u64, n: nat)
    requires n <= 64
    ensures Shr(And(lo, Shl(Pow2(n) - 1, 64 - n)), 64 - n) == Shr(lo, 64 - n)
    ensures Shr(lo, 64 - n) < Pow2(n)
  {
    hide Pow2, And;
    var p, q := Pow2(n), Pow2(64 - n);
    SplitWord(n);
    var t := Shr(lo, 64 - n);
    DivBound(lo, q, p);
    AndShifted(lo, p - 1, 64 - n);
    AndLow(t, n);
    DivModUnique(t, p, 0, t);
    DivModUnique(t * q, q, t, 0);
  }

  lemma ShiftLeftParts(hi: u64, lo: u64, n: nat)
    requires n <= 64
    ensures Shr(B64 - 1, n) < B64
    ensures Or(Shl(hi, n) % B64, Shr(And(lo, Not64(Shr(B64 - 1, n))), 64 - n)) == (hi * Pow2(n)) % B64 + lo / Pow2(64 - n)
    ensures Or(Shl(hi, n) % B64, Shr(And(lo, Not64(Shr(B64 - 1, n))), 64 - n)) < B64
  {
    hide Pow2, And, Or;
    var p, q := Pow2(n), Pow2(64 - n);
    HighMask(n);
    HighBits(lo, n);
    var a, t := Shl(hi, n) % B64, Shr(lo, 64 - n);
    assert a % p == 0 by {
      SplitWord(n);
      DivMod(hi * p, B64);
      var w := hi * p / B64;
      assert a == p * (hi - q * w) by {
        assert p * (hi - q * w) == hi * p - p * q * w;
      }
      ModMultipleInt(a, p, hi - q * w);
    }
    OrDisjoint(a, t, n);
    Pow2Of64();
    Pow2Monotone(n, 64);
    OrBound(a, t, 64);
  }

  lemma ModMultipleInt(a: nat, p: nat, k: int)
    requires p > 0 && a == p * k
    ensures a % p == 0
  {
    DivModUnique(a, p, k, 0);
  }

  lemma ShiftLeftWords(hi: u64, lo: u64, n: nat)
    requires n <= 64
    ensures Shr(B64 - 1, n) < B64
    ensures Or(Shl(hi, n) % B64, Shr(And(lo, Not64(Shr(B64 - 1, n))), 64 - n)) < B64
    ensures Value(Or(Shl(hi, n) % B64, Shr(And(lo, Not64(Shr(B64 - 1, n))), 64 - n)), Shl(lo, n) % B64) == Shl(Value(hi, lo), n) % B128
  {
    ShiftLeftParts(hi, lo, n);
    hide Or, And, Pow2;
    var p := Pow2(n);
    SplitWord(n);
    ShiftedLeftValue(hi, lo, p, Pow2(64 - n));
    DivMod(hi * p, B64);
    DivModUnique(Value(hi, lo) * p, B128, hi * p / B64, Value(Or(Shl(hi, n) % B64, Shr(And(lo, Not64(Shr(B64 - 1, n))), 64 - n)), Shl(lo, n) % B64));
  }

  lemma ShiftedLeftValue(hi: u64, lo: u64, p: nat, q: nat)
    requires p > 0 && q > 0 && p * q == B64
    ensures (hi * B64 + lo) * p == B128 * (hi * p / B64) + ((hi * p) % B64 + lo / q) * B64 + (lo * p) % B64
  {
    LowWord(lo, p, q);
    DivMod(hi * p, B64);
    assert (hi * B64 + lo) * p == hi * p * B64 + lo * p;
  }

  lemma LowWord(lo: u64, p: nat, q: nat)
    requires p > 0 && q > 0 && p * q == B64
    ensures lo * p == lo / q * B64 + (lo * p) % B64
  {
    var t, u := lo / q, lo % q;
    DivMod(lo, q);
    assert lo * p == B64 * t + u * p by {
      assert (q * t + u) * p == p * q * t + u * p;
    }
    ProductSign(u, p);
    ProductSign(p, q - 1 - u);
    assert p * (q - 1 - u) == p * q - p - u * p;
    DivModUnique(lo * p, B64, t, u * p);
  }

  // ~(uint64_t(-1) << n) selects the n low bits.
  lemma LowMask(n: nat)
    requires n <= 64
    ensures Not64(Shl(B64 - 1, n) % B64) == Pow2(n) - 1
  {
    hide Pow2;
    var p := Pow2(n);
    Pow2Of64();
    Pow2Monotone(n, 64);
    assert (B64 - 1) * p == B64 * (p - 1) + (B64 - p);
    DivModUnique((B64 - 1) * p, B64, p - 1, B64 - p);
  }

  lemma ShiftRightParts(hi: u64, lo: u64, n: nat)
    requires n <= 64
    ensures Or(Shr(lo, n), Shl(And(hi, Not64(Shl(B64 - 1, n) % B64)), 64 - n) % B64) == (hi % Pow2(n)) * Pow2(64 - n) + lo / Pow2(n)
    ensures Or(Shr(lo, n), Shl(And(hi, Not64(Shl(B64 - 1, n) % B64)), 64 - n) % B64) < B64
  {
    hide Pow2, And, Or;
    var p, q := Pow2(n), Pow2(64 - n);
    SplitWord(n);
    LowMask(n);
    AndLow(hi, n);
    DivMod(hi, p);
    MovedUp(hi % p, p, q);
    DivBound(lo, p, q);
    DivMod(lo, p);
    OrDisjoint((hi % p) * q, lo / p, 64 - n);
  }

  lemma MovedUp(a: nat, p: nat, q: nat)
    requires a < p && q > 0 && p * q == B64
    ensures 0 <= a * q <= B64 - q && (a * q) % B64 == a * q && (a * q) % q == 0
  {
    ProductSign(q, a);
    ProductSign(q, p - 1 - a);
    assert a * q + q * (p - 1 - a) == p * q - q;
    DivModUnique(a * q, B64, 0, a * q);
    ModMultipleInt(a * q, q, a);
  }

  lemma ShiftRightWords(hi: u64, lo: u64, low: u64, n: nat)
    requires n <= 64
    requires low == (hi % Pow2(n)) * Pow2(64 - n) + lo / Pow2(n)
    ensures Shr(hi, n) < B64 && Value(Shr(hi, n), low) == Shr(Value(hi, lo), n)
  {
    hide Pow2;
    ShrSmaller(hi, n);
    SplitWord(n);
    ShiftedRightValue(hi, lo, Pow2(n), Pow2(64 - n));
  }

  lemma ShiftedRightValue(hi: u64, lo: u64, p: nat, q: nat)
    requires p > 0 && q > 0 && p * q == B64
    ensures (hi * B64 + lo) / p == (hi / p) * B64 + (hi % p) * q + lo / p
  {
    DivMod(hi, p);
    DivMod(lo, p);
    var x, y := hi / p, hi % p;
    assert p * (x * B64 + y * q + lo / p) == p * x * B64 + p * q * y + p * (lo / p);
    DivModUnique(hi * B64 + lo, p, x * B64 + y * q + lo / p, lo % p);
  }

  // ---------- Multiplication by 32-bit limbs ----------

  const B96: nat := B64 * B32

  lemma ProductBound(a: nat, b: nat, m: nat, n: nat)
    requires a < m && b < n
    ensures 0 <= a * b <= (m - 1) * (n - 1)
  {
    ProductSign(a, b);
    ProductSign(m - 1 - a, n - 1);
    ProductSign(a, n - 1 - b);
    assert (m - 1) * (n - 1) == (m - 1 - a) * (n - 1) + a * (n - 1 - b) + a * b;
  }

  // One limb times the four limbs of the other number.
  lemma LimbRow(a: nat, b0: nat, b1: nat, b2: nat, b3: nat)
    ensures a * (b0 + B32 * b1 + B64 * b2 + B96 * b3) == a * b0 + B32 * (a * b1) + B64 * (a * b2) + B96 * (a * b3)
  {
    assert a * (B32 * b1) == B32 * (a * b1);
    assert a * (B64 * b2) == B64 * (a * b2);
    assert a * (B96 * b3) == B96 * (a * b3);
  }

  lemma FourRows(a0: nat, a1: nat, a2: nat, a3: nat, b: nat)
    ensures (a0 + B32 * a1 + B64 * a2 + B96 * a3) * b == a0 * b + B32 * (a1 * b) + B64 * (a2 * b) + B96 * (a3 * b)
  {
    LimbRow(b, a0, a1, a2, a3);
  }

  function Times32(a: u32, b: u32): u64 {
    ProductBound(a, b, B32, B32);
    a * b
  }

  // The three folds of operator*=, without a modulus.
  function LimbSum(a0: u32, a1: u32, a2: u32, a3: u32, b0: u32, b1: u32, b2: u32, b3: u32): nat {
    (((Times32(a3, b0) + Times32(a2, b1) + Times32(a1, b2) + Times32(a0, b3)) * B32
      + Times32(a2, b0) + Times32(a1, b1) + Times32(a0, b2)) * B32
      + Times32(a1, b0) + Times32(a0, b1)) * B32
      + Times32(a0, b0)
  }

  // The cross terms from 2^128 up do not appear in the result.
  lemma LimbProduct(a0: nat, a1: nat, a2: nat, a3: nat, b0: nat, b1: nat, b2: nat, b3: nat)
    ensures (a0 + B32 * a1 + B64 * a2 + B96 * a3) * (b0 + B32 * b1 + B64 * b2 + B96 * b3) % B128
         == ((((a3 * b0 + a2 * b1 + a1 * b2 + a0 * b3) * B32
              + a2 * b0 + a1 * b1 + a0 * b2) * B32
              + a1 * b0 + a0 * b1) * B32
              + a0 * b0) % B128
  {
    var a, b := a0 + B32 * a1 + B64 * a2 + B96 * a3, b0 + B32 * b1 + B64 * b2 + B96 * b3;
    FourRows(a0, a1, a2, a3, b);
    LimbRow(a0, b0, b1, b2, b3);
    LimbRow(a1, b0, b1, b2, b3);
    LimbRow(a2, b0, b1, b2, b3);
    LimbRow(a3, b0, b1, b2, b3);
    var low := (((a3 * b0 + a2 * b1 + a1 * b2 + a0 * b3) * B32 + a2 * b0 + a1 * b1 + a0 * b2) * B32
                + a1 * b0 + a0 * b1) * B32 + a0 * b0;
    var high := a3 * b1 + a2 * b2 + a1 * b3 + B32 * (a3 * b2 + a2 * b3) + B64 * (a3 * b3);
    assert a * b == low + B128 * high;
    ModSum(low, B128, high);
  }

  lemma Limbs(hi: u64, lo: u64)
    ensures Value(hi, lo) == lo % B32 + B32 * (Shr(lo, 32) % B32) + B64 * (hi % B32) + B96 * (Shr(hi, 32) % B32)
  {
    hide Pow2;
    Pow2Of32();
  }

  // The 256-bit product assembled from four 128-bit ones; the top word does not overflow.
  lemma ProductWords(ah: u64, al: u64, bh: u64, bl: u64,
                     sh: u64, sl: u64, rh: u64, rl: u64, qh: u64, ql: u64, ph: u64, pl: u64)
    requires Value(sh, sl) == al * bl && Value(rh, rl) == ah * bl
    requires Value(qh, ql) == al * bh && Value(ph, pl) == ah * bh
    ensures var t1 := sh + ql + rl;
            var t2 := t1 / B64 + qh + rh + pl;
            var y3 := t2 / B64 + ph;
            y3 < B64 && y3 % B64 == y3 &&
            Value(ah, al) * Value(bh, bl) == Value(y3, t2 % B64) * B128 + Value(t1 % B64, sl)
  {
    CrossTerms(ah, al, bh, bl);
    ProductBound(Value(ah, al), Value(bh, bl), B128, B128);
    WordsAssembled(Value(ah, al) * Value(bh, bl), sh, sl, rh, rl, qh, ql, ph, pl);
  }

  lemma WordsAssembled(product: nat, sh: u64, sl: u64, rh: u64, rl: u64, qh: u64, ql: u64, ph: u64, pl: u64)
    requires product < B128 * B128
    requires product == Value(ph, pl) * B128 + (Value(qh, ql) + Value(rh, rl)) * B64 + Value(sh, sl)
    ensures var t1 := sh + ql + rl;
            var t2 := t1 / B64 + qh + rh + pl;
            var y3 := t2 / B64 + ph;
            y3 < B64 && y3 % B64 == y3 && product == Value(y3, t2 % B64) * B128 + Value(t1 % B64, sl)
  {
  }

  lemma LowWords(product: nat, high: nat, low: nat)
    requires product == high * B128 + low && low < B128
    ensures product % B128 == low
  {
    DivModUnique(product, B128, high, low);
  }

  lemma CrossTerms(ah: u64, al: u64, bh: u64, bl: u64)
    ensures Value(ah, al) * Value(bh, bl) == (ah * bh) * B128 + (al * bh + ah * bl) * B64 + al * bl
  {
    assert (ah * B64 + al) * (bh * B64 + bl)
        == ah * B64 * (bh * B64) + ah * B64 * bl + al * (bh * B64) + al * bl;
    assert ah * B64 * (bh * B64) == (ah * bh) * B128;
  }

  // ---------- Shift-subtract division ----------

  // j is the bit of the quotient that comes next; at -1 the remainder is left in n.
  ghost predicate Dividing(whole: nat, div: nat, j: int, n: nat, d: nat, x: nat, answer: nat) {
    && div > 0 && j >= -1
    && whole == answer * div + n
    && x == (if j >= 0 then Pow2(j) else 0)
    && (if j >= 0 then d == div * Pow2(j) && n < 2 * d && answer % Pow2(j + 1) == 0 else n < div)
  }

  lemma DividingStart(whole: nat, div: nat, j: nat, d: nat)
    requires div > 0 && d == div * Pow2(j) && whole < 2 * d
    ensures Dividing(whole, div, j, whole, d, Pow2(j), 0)
  {
    hide Pow2;
    DivModUnique(0, Pow2(j + 1), 0, 0);
  }

  lemma DividingStep(whole: nat, div: nat, j: int, n: nat, d: nat, x: nat, answer: nat)
    requires Dividing(whole, div, j, n, d, x, answer) && x != 0
    ensures var n' := if n >= d then n - d else n;
            var answer' := if n >= d then Or(answer, x) else answer;
            Dividing(whole, div, j - 1, n', Shr(d, 1), Shr(x, 1), answer')
    ensures Shr(x, 1) < x
  {
    var p := Pow2(j);
    assert Pow2(j + 1) == 2 * p;
    HalvesOf(d, x, div, j);
    if n >= d {
      Pow2Monotone(j, j + 1);
    }
    hide Pow2;
    MultipleOfHalf(answer, p);
    if n >= d {
      OrDisjoint(answer, p, j + 1);
      SubtractOnce(whole, div, n, d, p, answer);
    }
  }

  lemma SubtractOnce(whole: nat, div: nat, n: nat, d: nat, p: nat, answer: nat)
    requires p > 0 && whole == answer * div + n && d == div * p && n >= d && answer % p == 0
    ensures whole == (answer + p) * div + (n - d) && (answer + p) % p == 0
  {
    assert (answer + p) * div == answer * div + div * p;
    ModSum(answer, p, 1);
  }

  lemma MultipleOfHalf(a: nat, p: nat)
    requires p > 0 && a % (2 * p) == 0
    ensures a % p == 0
  {
    DivMod(a, 2 * p);
    var q := a / (2 * p);
    assert 2 * p * q == p * (2 * q);
    ModMultiple(p, 2 * q);
  }

  lemma HalvesOf(d: nat, x: nat, div: nat, j: nat)
    requires div > 0 && x == Pow2(j) && d == div * Pow2(j)
    ensures Shr(x, 1) == if j > 0 then Pow2(j - 1) else 0
    ensures j > 0 ==> Shr(d, 1) == div * Pow2(j - 1) && 2 * Shr(d, 1) == d
  {
    ShrStep(x, 1);
    ShrStep(d, 1);
    ShrStep(x / 2, 0);
    ShrStep(d / 2, 0);
    if j > 0 {
      var p := Pow2(j - 1);
      assert div * (2 * p) == 2 * (div * p);
    }
  }
}
