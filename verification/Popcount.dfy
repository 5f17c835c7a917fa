/** Counting the set bits of a word by adding neighbouring fields, all of them at once. */
module Popcount {
  import opened Words
  import opened UInt128Words
  import opened Arithmetic128

  function Pop(x: nat): nat {
    if x == 0 then 0 else x % 2 + Pop(x / 2)
  }

  // The low n bits.
  function Low(x: nat, n: nat): (r: nat)
    ensures r < Pow2(n)
  {
    DivMod(x, Pow2(n));
    x % Pow2(n)
  }

  lemma LowAndRest(x: nat, n: nat)
    ensures x == Low(x, n) + Shl(Shr(x, n), n)
  {
    DivMod(x, Pow2(n));
  }

  // n fields of w bits, the lowest first, each holding how many of its bits are set in x.
  function Counts(x: nat, w: nat, n: nat): nat
    decreases n
  {
    if n == 0 then 0 else Pop(Low(x, w)) + Shl(Counts(Shr(x, w), w, n - 1), w)
  }

  // Every other field of w bits, n of them, the lowest first.
  function Mask(w: nat, n: nat): nat {
    if n == 0 then 0 else Pow2(w) - 1 + Shl(Mask(w, n - 1), 2 * w)
  }

  // ---------- Fields ----------

  lemma ShlAdd(a: nat, b: nat, n: nat)
    ensures Shl(a + b, n) == Shl(a, n) + Shl(b, n)
  {
    var p := Pow2(n);
    assert (a + b) * p == a * p + b * p;
  }

  // A low field below other bits is told apart from them.
  lemma FieldBelow(low: nat, upper: nat, n: nat)
    requires low < Pow2(n)
    ensures Low(low + Shl(upper, n), n) == low && Shr(low + Shl(upper, n), n) == upper
  {
    DivModUnique(low + Shl(upper, n), Pow2(n), upper, low);
  }

  lemma TwoFieldsFit(low: nat, middle: nat, w: nat)
    requires low < Pow2(w) && middle < Pow2(w)
    ensures low + Shl(middle, w) < Pow2(2 * w)
  {
    hide Pow2;
    Pow2Add(w, w);
    var p := Pow2(w);
    ProductSign(p, p - 1 - middle);
    assert p * (p - 1 - middle) == p * p - p - middle * p;
  }

  // Masking two fields on top of others keeps the lower one.
  lemma MaskField(low: nat, middle: nat, top: nat, mask: nat, w: nat)
    requires low < Pow2(w) && middle < Pow2(w)
    ensures And(low + Shl(middle, w) + Shl(top, 2 * w), Pow2(w) - 1 + Shl(mask, 2 * w)) == low + Shl(And(top, mask), 2 * w)
  {
    var y := low + Shl(middle, w);
    TwoFieldsFit(low, middle, w);
    Pow2Monotone(w, 2 * w);
    FieldBelow(low, middle, w);
    hide Pow2, And, Shl;
    AndHalves(top, y, mask, Pow2(w) - 1, 2 * w);
    AndLow(y, w);
  }

  lemma PopStep(x: nat)
    ensures Pop(x) == x % 2 + Pop(x / 2)
  {
  }

  lemma LowStep(x: nat, w: nat)
    ensures Low(x, w) == if w == 0 then 0 else x % 2 + 2 * Low(x / 2, w - 1)
  {
    if w > 0 {
      Halve(x, Pow2(w - 1));
    }
  }

  lemma {:induction false} PopSplit(x: nat, w: nat)
    ensures Pop(x) == Pop(Low(x, w)) + Pop(Shr(x, w))
    decreases w
  {
    hide Low, Shr, Pow2;
    LowStep(x, w);
    ShrStep(x, w);
    if w > 0 {
      PopSplit(x / 2, w - 1);
      PopStep(x);
      PopStep(Low(x, w));
      hide Pop;
    }
  }

  // A count fits in its field.
  lemma {:induction false} PopFits(x: nat, w: nat)
    requires x < Pow2(w)
    ensures Pop(x) < Pow2(w)
    decreases w
  {
    if w > 0 && x > 0 {
      PopFits(x / 2, w - 1);
    }
  }

  lemma ThreeFields(x: nat, w: nat)
    ensures var x1 := Shr(x, w);
            x == Low(x, w) + Shl(Low(x1, w), w) + Shl(Shr(x1, w), 2 * w)
  {
    hide Pow2, Shl, Shr;
    var x1 := Shr(x, w);
    var b, x2 := Low(x1, w), Shr(x1, w);
    LowAndRest(x, w);
    LowAndRest(x1, w);
    ShlAdd(b, Shl(x2, w), w);
    ShlShl(x2, w, w);
  }

  // The lower 2w bits as two fields.
  lemma LowOfTwo(x: nat, w: nat)
    ensures Low(Low(x, 2 * w), w) == Low(x, w) && Shr(Low(x, 2 * w), w) == Low(Shr(x, w), w)
  {
    hide Low, Shl, Shr, Pow2;
    var x1 := Shr(x, w);
    var a, b, x2 := Low(x, w), Low(x1, w), Shr(x1, w);
    ThreeFields(x, w);
    TwoFieldsFit(a, b, w);
    FieldBelow(a + Shl(b, w), x2, 2 * w);
    FieldBelow(a, b, w);
  }

  // ---------- One round ----------

  // The masked fields of a number whose two lowest fields are a and b.
  lemma MaskBoth(a: nat, b: nat, top: nat, mask: nat, w: nat)
    requires a < Pow2(w) && b < Pow2(w)
    ensures var y, m := a + Shl(b + Shl(top, w), w), Pow2(w) - 1 + Shl(mask, 2 * w);
            && And(y, m) == a + Shl(And(top, mask), 2 * w)
            && And(Shr(y, w), m) == b + Shl(And(Shr(top, w), mask), 2 * w)
  {
    hide Low, Shl, Shr, And, Pow2;
    var y := a + Shl(b + Shl(top, w), w);
    ShlAdd(b, Shl(top, w), w);
    ShlShl(top, w, w);
    MaskField(a, b, top, mask, w);
    FieldBelow(a, b + Shl(top, w), w);
    var c, rest := Low(top, w), Shr(top, w);
    LowAndRest(top, w);
    ShlAdd(c, Shl(rest, w), w);
    ShlShl(rest, w, w);
    MaskField(b, c, rest, mask, w);
  }

  // A round adds m fields in n pairs.
  lemma {:induction false} Pairwise(x: nat, w: nat, m: nat, n: nat)
    requires m == n + n
    ensures var y := Counts(x, w, m);
            And(y, Mask(w, n)) + And(Shr(y, w), Mask(w, n)) == Counts(x, 2 * w, n)
    decreases n
  {
    if n > 0 {
      Pairwise(Shr(Shr(x, w), w), w, m - 2, n - 1);
      PairwiseStep(x, w, m, n);
    }
  }

  lemma PairwiseStep(x: nat, w: nat, m: nat, n: nat)
    requires m == n + n && n > 0
    requires var x2 := Shr(Shr(x, w), w);
             var t := Counts(x2, w, m - 2);
             And(t, Mask(w, n - 1)) + And(Shr(t, w), Mask(w, n - 1)) == Counts(x2, 2 * w, n - 1)
    ensures var y := Counts(x, w, m);
            And(y, Mask(w, n)) + And(Shr(y, w), Mask(w, n)) == Counts(x, 2 * w, n)
  {
    hide Low, Shl, Shr, And, Pow2, Pop, Counts, Mask;
    CountsOfPair(x, w, n);
    TwoCounts(x, w, m);
    MaskUnfold(w, n);
    var x1 := Shr(x, w);
    PopFits(Low(x, w), w);
    PopFits(Low(x1, w), w);
    var t, mask := Counts(Shr(x1, w), w, m - 2), Mask(w, n - 1);
    MaskBoth(Pop(Low(x, w)), Pop(Low(x1, w)), t, mask, w);
    ShlAdd(And(t, mask), And(Shr(t, w), mask), 2 * w);
  }

  lemma MaskUnfold(w: nat, n: nat)
    requires n > 0
    ensures Mask(w, n) == Pow2(w) - 1 + Shl(Mask(w, n - 1), 2 * w)
  {
  }

  lemma CountsOfPair(x: nat, w: nat, n: nat)
    requires n > 0
    ensures var x1 := Shr(x, w);
            Counts(x, 2 * w, n) == Pop(Low(x, w)) + Pop(Low(x1, w)) + Shl(Counts(Shr(x1, w), 2 * w, n - 1), 2 * w)
  {
    hide Low, Shl, Shr, Pow2, Pop;
    ShrShr(x, w, w);
    LowOfTwo(x, w);
    PopSplit(Low(x, 2 * w), w);
  }

  lemma TwoCounts(x: nat, w: nat, m: nat)
    requires m >= 2
    ensures var x1 := Shr(x, w);
            Counts(x, w, m) == Pop(Low(x, w)) + Shl(Pop(Low(x1, w)) + Shl(Counts(Shr(x1, w), w, m - 2), w), w)
  {
    hide Low, Shl, Shr, Pop;
  }

  // ---------- The masks, the first fields and the last one ----------

  // A mask is told by its product with 2^w + 1, which is all ones.
  lemma {:induction false} MaskProduct(w: nat, n: nat)
    ensures Mask(w, n) * (Pow2(w) + 1) == Pow2(Width(w, n)) - 1
    decreases n
  {
    hide Pow2;
    Pow2Add(0, 0);
    if n > 0 {
      MaskProduct(w, n - 1);
      Pow2Add(w, w);
      Pow2Add(Width(w, n - 1), 2 * w);
      MaskAlgebra(Pow2(w), Pow2(2 * w), Mask(w, n - 1), Pow2(Width(w, n - 1)));
    }
  }

  // The bits of n pairs of fields.
  function Width(w: nat, n: nat): nat {
    if n == 0 then 0 else Width(w, n - 1) + 2 * w
  }

  lemma MaskAlgebra(p: nat, q: nat, m: nat, ones: nat)
    requires p > 0 && q == p * p && m * (p + 1) == ones - 1
    ensures (p - 1 + m * q) * (p + 1) == ones * q - 1
  {
    assert (p - 1 + m * q) * (p + 1) == (p - 1) * (p + 1) + m * q * (p + 1);
    assert m * q * (p + 1) == q * (m * (p + 1));
    assert q * (ones - 1) == ones * q - q;
    assert (p - 1) * (p + 1) == p * p - 1;
  }

  lemma {:induction false} SingleBits(x: nat, n: nat)
    requires x < Pow2(n)
    ensures Counts(x, 1, n) == x
    decreases n
  {
    if n > 0 {
      ShrStep(x, 1);
      ShrStep(x / 2, 0);
      ShlStep(x / 2, 1);
      ShlStep(x / 2, 0);
      LowStep(x, 1);
      LowStep(x / 2, 0);
      SingleBits(x / 2, n - 1);
      PopOfBit(x % 2);
    }
  }

  lemma PopOfBit(b: nat)
    requires b < 2
    ensures Pop(b) == b
  {
  }

  lemma {:induction false} PopAtMost(x: nat, w: nat)
    requires x < Pow2(w)
    ensures Pop(x) <= w
    decreases w
  {
    if w > 0 && x > 0 {
      PopAtMost(x / 2, w - 1);
    }
  }

  lemma MaskOfWord(w: nat, n: nat, p: nat, mask: nat)
    requires Pow2(w) == p && p > 1 && Width(w, n) == 64
    requires mask * (p + 1) == B64 - 1
    ensures Mask(w, n) == mask && 2 * mask < B64
  {
    MaskProduct(w, n);
    Pow2Of64();
    hide Pow2, Mask;
    DivModUnique(B64 - 1, p + 1, mask, 0);
    DivModUnique(B64 - 1, p + 1, Mask(w, n), 0);
    assert mask * (p + 1) == 3 * mask + mask * (p - 2);
    ProductSign(mask, p - 2);
  }

  const MASKS: seq<u64> := [
    0x5555555555555555, 0x3333333333333333, 0x0F0F0F0F0F0F0F0F,
    0x00FF00FF00FF00FF, 0x0000FFFF0000FFFF, 0x00000000FFFFFFFF]

  // Field width and number of fields before each round and after the last.
  function WidthAt(i: nat): nat
    requires i <= 6
  {
    [1, 2, 4, 8, 16, 32, 64][i]
  }

  function FieldsAt(i: nat): nat
    requires i <= 6
  {
    [64, 32, 16, 8, 4, 2, 1][i]
  }

  // The constants of the source are the masks of the six rounds.
  lemma MaskOfRound(i: nat)
    requires i < 6
    ensures Mask(WidthAt(i), FieldsAt(i + 1)) == MASKS[i] && 2 * MASKS[i] < B64
    ensures WidthAt(i + 1) == 2 * WidthAt(i) && FieldsAt(i) == FieldsAt(i + 1) + FieldsAt(i + 1)
  {
    var w, n := WidthAt(i), FieldsAt(i + 1);
    WidthIsProduct(w, n);
    assert Pow2(8) == 256;
    Pow2Add(8, 8);
    Pow2Of32();
    MaskOfWord(w, n, Pow2(w), MASKS[i]);
  }

  lemma {:induction false} WidthIsProduct(w: nat, n: nat)
    ensures Width(w, n) == 2 * n * w
    decreases n
  {
    if n > 0 {
      WidthIsProduct(w, n - 1);
      assert 2 * n * w == 2 * (n - 1) * w + 2 * w;
    }
  }

  // One round on a word; the sum does not overflow.
  method AddPairs(x: u64, mask: u64, w: nat, ghost of: nat, ghost m: nat, ghost n: nat) returns (y: u64)
    requires m == n + n && mask == Mask(w, n) && 2 * mask < B64 && x == Counts(of, w, m)
    ensures y == Counts(of, 2 * w, n)
  {
    Pairwise(of, w, m, n);
    AndBelowMask(x, mask);
    AndBelowMask(Shr(x, w), mask);
    hide And, Shr, Mask, Counts;
    y := And(x, mask) + And(Shr(x, w), mask);
  }

  method PopCount64(word: u64) returns (count: nat)
    ensures count == Pop(word) && count <= 64
  {
    Pow2Of64();
    SingleBits(word, 64);
    LastField(word);
    PopAtMost(word, 64);
    hide Counts, Mask, Pow2, Pop;
    var x, i, w := word, 0, 1;
    while i < 6
      invariant 0 <= i <= 6 && w == WidthAt(i)
      invariant x == Counts(word, w, FieldsAt(i))
    {
      MaskOfRound(i);
      x := AddPairs(x, MASKS[i], w, word, FieldsAt(i), FieldsAt(i + 1));
      i := i + 1;
      w := w + w;
    }
    count := x;
  }

  lemma OneField(x: nat, w: nat)
    ensures Counts(x, w, 1) == Pop(Low(x, w))
  {
    hide Low, Pop, Shr, Pow2;
  }

  lemma LastField(x: u64)
    ensures Counts(x, 64, 1) == Pop(x)
  {
    Pow2Of64();
    OneField(x, 64);
    hide Pow2, Pop, Counts;
    DivModUnique(x, Pow2(64), 0, x);
  }

  lemma SplitCount(hi: u64, lo: u64)
    ensures Pop(Value(hi, lo)) == Pop(lo) + Pop(hi)
  {
    Pow2Of64();
    PopSplit(Value(hi, lo), 64);
    FieldBelow(lo, hi, 64);
  }

  method PopCount(u: UInt128) returns (count: nat)
    ensures count == Pop(u.V()) <= 128
  {
    hide Pow2, Pop, Low, Shr, Shl;
    SplitCount(u.hi, u.lo);
    var low := PopCount64(u.lo);
    var high := PopCount64(u.hi);
    count := low + high;
  }
}
