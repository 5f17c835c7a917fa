/** Machine words as bounded naturals: powers of two, bit operations, arithmetic modulo a power of two. */
module Words {

  const B32: nat := 0x1_0000_0000
  const B64: nat := 0x1_0000_0000_0000_0000
  const B128: nat := 0x1_0000_0000_0000_0000_0000_0000_0000_0000

  type u32 = x: nat | x < B32 witness 0
  type u64 = x: nat | x < B64 witness 0

  function Pow2(n: nat): (p: nat)
    ensures p > 0
  {
    if n == 0 then 1 else 2 * Pow2(n - 1)
  }

  lemma {:induction false} Pow2Add(m: nat, n: nat)
    ensures Pow2(m + n) == Pow2(m) * Pow2(n)
    decreases n
  {
    if n > 0 {
      Pow2Add(m, n - 1);
      assert Pow2(m + n) == 2 * Pow2(m + (n - 1));
    }
  }

  lemma {:induction false} Pow2Monotone(m: nat, n: nat)
    requires m <= n
    ensures Pow2(m) <= Pow2(n)
    decreases n - m
  {
    if m < n {
      Pow2Monotone(m, n - 1);
    }
  }

  lemma Pow2Of32()
    ensures Pow2(32) == B32
  {
    assert Pow2(8) == 256;
    Pow2Add(8, 8);
    Pow2Add(16, 16);
  }

  lemma Pow2Of64()
    ensures Pow2(64) == B64
  {
    hide Pow2;
    Pow2Of32();
    Pow2Add(32, 32);
  }

  lemma Pow2Of128()
    ensures Pow2(128) == B128
  {
    hide Pow2;
    Pow2Of64();
    Pow2Add(64, 64);
  }

  // ---------- Division with remainder ----------

  lemma ProductSign(a: int, b: int)
    requires a >= 0
    ensures b >= 0 ==> a * b >= 0
    ensures b <= 0 ==> a * b <= 0
  {
  }

  lemma SmallMultiple(d: int, k: int)
    requires d >= 0
    ensures k != 0 ==> d * k >= d || d * k <= -d
  {
    assert d * k == d + d * (k - 1) && d * k == -d + d * (k + 1);
    ProductSign(d, k - 1);
    ProductSign(d, k + 1);
  }

  lemma DivModUnique(a: nat, d: nat, q: int, r: nat)
    requires d > 0 && a == d * q + r && r < d
    ensures a / d == q && a % d == r
  {
    var k := q - a / d;
    assert d * k == a % d - r by {
      assert a == d * (a / d) + a % d;
      assert d * k == d * q - d * (a / d);
    }
    SmallMultiple(d, k);
  }

  lemma DivMod(a: nat, d: nat)
    requires d > 0
    ensures a == d * (a / d) + a % d && a % d < d
    ensures a / d >= 0
  {
    var q := a / d;
    assert d * (q + 1) == d * q + d;
    ProductSign(d, q + 1);
  }

  lemma DivSmaller(a: nat, d: nat)
    requires d > 0
    ensures 0 <= a / d <= a
  {
    DivMod(a, d);
    var q := a / d;
    assert d * q == q + q * (d - 1);
    ProductSign(q, d - 1);
  }

  lemma DivStrict(a: nat, d: nat)
    requires a > 0 && d >= 2
    ensures 0 <= a / d < a
  {
    DivMod(a, d);
    var q := a / d;
    assert d * q == 2 * q + q * (d - 2);
    ProductSign(q, d - 2);
  }

  lemma DivBound(a: nat, q: nat, p: nat)
    requires a < p * q
    ensures q > 0 && a / q < p
  {
    if q > 0 {
      var t := a / q;
      DivMod(a, q);
      assert q * (t - p) == q * t - p * q;
      ProductSign(q, t - p);
    }
  }

  lemma ModMultiple(p: nat, q: nat)
    requires p > 0
    ensures (p * q) % p == 0 && (p * q) / p == q
  {
    DivModUnique(p * q, p, q, 0);
  }

  lemma ModSum(a: nat, m: nat, k: int)
    requires m > 0 && a + m * k >= 0
    ensures (a + m * k) % m == a % m
  {
    DivMod(a, m);
    assert a + m * k == m * (a / m + k) + a % m;
    DivModUnique(a + m * k, m, a / m + k, a % m);
  }

  // ---------- Arithmetic modulo m ----------

  lemma ModAdd(a: nat, b: nat, m: nat)
    requires m > 0
    ensures (a % m + b) % m == (a + b) % m
  {
    DivMod(a, m);
    ModSum(a % m + b, m, a / m);
  }

  lemma ModMul(a: nat, b: nat, m: nat)
    requires m > 0
    ensures ((a % m) * b) % m == (a * b) % m
  {
    var q, r := a / m, a % m;
    DivMod(a, m);
    assert a * b == r * b + m * (q * b) by {
      assert a * b == (m * q + r) * b == m * q * b + r * b;
      assert m * q * b == m * (q * b);
    }
    ModSum(r * b, m, q * b);
  }

  // ---------- Halving ----------

  lemma Halve(a: nat, p: nat)
    requires p > 0
    ensures a / (2 * p) == (a / 2) / p
    ensures a % (2 * p) == a % 2 + 2 * ((a / 2) % p)
  {
    var q, r := (a / 2) / p, (a / 2) % p;
    DivMod(a, 2);
    DivMod(a / 2, p);
    assert 2 * (p * q) == 2 * p * q;
    DivModUnique(a, 2 * p, q, a % 2 + 2 * r);
  }

  // ---------- Shifts ----------

  function Shl(a: nat, n: nat): nat {
    a * Pow2(n)
  }

  function Shr(a: nat, n: nat): nat {
    DivMod(a, Pow2(n));
    a / Pow2(n)
  }

  lemma ShrSmaller(a: nat, n: nat)
    ensures Shr(a, n) <= a
  {
    DivSmaller(a, Pow2(n));
  }

  lemma ShlStep(a: nat, n: nat)
    ensures Shl(a, n) == if n == 0 then a else 2 * Shl(a, n - 1)
  {
    if n > 0 {
      var p := Pow2(n - 1);
      assert a * (2 * p) == 2 * (a * p);
    }
  }

  lemma ShrStep(a: nat, n: nat)
    ensures Shr(a, n) == if n == 0 then a else Shr(a / 2, n - 1)
  {
    if n > 0 {
      Halve(a, Pow2(n - 1));
    }
  }

  lemma ShlShl(a: nat, m: nat, n: nat)
    ensures Shl(Shl(a, m), n) == Shl(a, m + n)
  {
    hide Pow2;
    Pow2Add(m, n);
    assert a * Pow2(m) * Pow2(n) == a * (Pow2(m) * Pow2(n));
  }

  lemma DivDiv(a: nat, b: nat, c: nat)
    requires b > 0 && c > 0
    ensures b * c > 0 && (a / b) / c == a / (b * c)
  {
    DivMod(a, b);
    DivMod(a / b, c);
    RemainderOfBoth(b, c, (a / b) % c, a % b);
    var q, r := a / b / c, (a / b) % c;
    assert b * (c * q + r) == b * c * q + b * r;
    DivModUnique(a, b * c, q, b * r + a % b);
  }

  lemma RemainderOfBoth(b: nat, c: nat, r: nat, s: nat)
    requires r < c && s < b
    ensures b * c > 0 && 0 <= b * r + s < b * c
  {
    ProductSign(b, r);
    ProductSign(b, c - 1 - r);
    assert b * (c - 1 - r) == b * c - b - b * r;
  }

  lemma ShrShr(a: nat, m: nat, n: nat)
    ensures Shr(Shr(a, m), n) == Shr(a, m + n)
  {
    hide Pow2;
    Pow2Add(m, n);
    DivDiv(a, Pow2(m), Pow2(n));
  }

  // ---------- Bit operations ----------

  function Or(a: nat, b: nat): nat
    decreases a + b
  {
    if a == 0 then b else if b == 0 then a
    else (if a % 2 == 1 || b % 2 == 1 then 1 else 0) + 2 * Or(a / 2, b / 2)
  }

  function And(a: nat, b: nat): nat
    decreases a + b
  {
    if a == 0 || b == 0 then 0
    else (if a % 2 == 1 && b % 2 == 1 then 1 else 0) + 2 * And(a / 2, b / 2)
  }

  // ~ on 64 bits
  function Not64(a: u64): u64 {
    B64 - 1 - a
  }

  // Bits that do not overlap: the low n bits of a are clear, b has no others.
  lemma {:induction false} OrDisjoint(a: nat, b: nat, n: nat)
    requires a % Pow2(n) == 0 && b < Pow2(n)
    ensures Or(a, b) == a + b && Or(b, a) == a + b
    decreases n
  {
    if n > 0 && a > 0 && b > 0 {
      Halve(a, Pow2(n - 1));
      OrDisjoint(a / 2, b / 2, n - 1);
    }
  }

  lemma {:induction false} OrBound(a: nat, b: nat, n: nat)
    requires a < Pow2(n) && b < Pow2(n)
    ensures Or(a, b) < Pow2(n)
    decreases n
  {
    if n > 0 && a > 0 && b > 0 {
      OrBound(a / 2, b / 2, n - 1);
    }
  }

  lemma OrUnfold(a: nat, b: nat)
    ensures Or(a, b) == (if a % 2 == 1 || b % 2 == 1 then 1 else 0) + 2 * Or(a / 2, b / 2)
  {
  }

  lemma OrNothing(n: nat)
    ensures Or(0, 0) == 0 && Pow2(n) == if n == 0 then 1 else 2 * Pow2(n - 1)
  {
  }

  // Or works on each half of a wider word by itself.
  lemma {:induction false} OrHalves(a: nat, b: nat, c: nat, d: nat, n: nat)
    requires b < Pow2(n) && d < Pow2(n)
    ensures Or(Shl(a, n) + b, Shl(c, n) + d) == Shl(Or(a, c), n) + Or(b, d)
    decreases n
  {
    OrNothing(n);
    hide Shl, Or, Pow2;
    ShlStep(a, n);
    ShlStep(c, n);
    ShlStep(Or(a, c), n);
    if n > 0 {
      OrHalves(a, b / 2, c, d / 2, n - 1);
      OrUnfold(Shl(a, n) + b, Shl(c, n) + d);
      OrUnfold(b, d);
    }
  }

  lemma AndUnfold(a: nat, b: nat)
    ensures And(a, b) == (if a % 2 == 1 && b % 2 == 1 then 1 else 0) + 2 * And(a / 2, b / 2)
  {
  }

  lemma AndStep(a: nat, b: nat, c: nat, d: nat)
    ensures And(2 * a + b, 2 * c + d) == (if b % 2 == 1 && d % 2 == 1 then 1 else 0) + 2 * And(a + b / 2, c + d / 2)
  {
    AndUnfold(2 * a + b, 2 * c + d);
  }

  lemma {:induction false} AndBound(a: nat, b: nat)
    ensures And(a, b) <= a
    decreases a
  {
    if a > 0 {
      AndBound(a / 2, b / 2);
    }
  }

  lemma {:induction false} AndBelowMask(a: nat, b: nat)
    ensures And(a, b) <= b
    decreases b
  {
    if b > 0 {
      AndBelowMask(a / 2, b / 2);
    }
  }

  lemma {:induction false} AndHalves(a: nat, b: nat, c: nat, d: nat, n: nat)
    requires b < Pow2(n) && d < Pow2(n)
    ensures And(Shl(a, n) + b, Shl(c, n) + d) == Shl(And(a, c), n) + And(b, d)
    decreases n
  {
    hide Shl, And;
    ShlStep(a, n);
    ShlStep(c, n);
    ShlStep(And(a, c), n);
    if n == 0 {
      AndBound(b, d);
    } else {
      AndHalves(a, b / 2, c, d / 2, n - 1);
      hide Pow2;
      AndStep(Shl(a, n - 1), b, Shl(c, n - 1), d);
      AndUnfold(b, d);
    }
  }

  // The mask of the low n bits.
  lemma {:induction false} AndLow(a: nat, n: nat)
    ensures And(a, Pow2(n) - 1) == a % Pow2(n)
    decreases n
  {
    if n > 0 {
      AndLow(a / 2, n - 1);
      Halve(a, Pow2(n - 1));
    }
  }

  lemma AndDouble(a: nat, m: nat)
    ensures And(a, 2 * m) == 2 * And(a / 2, m)
  {
  }

  // A mask that is shifted left by k bits.
  lemma {:induction false} AndShifted(a: nat, mask: nat, k: nat)
    ensures And(a, Shl(mask, k)) == Shl(And(Shr(a, k), mask), k)
    decreases k
  {
    ShlStep(mask, k);
    ShrStep(a, k);
    ShlStep(And(Shr(a, k), mask), k);
    if k > 0 {
      AndShifted(a / 2, mask, k - 1);
      hide Shl, Shr, And;
      AndDouble(a, Shl(mask, k - 1));
    }
  }
}
