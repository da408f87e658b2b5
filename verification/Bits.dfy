// Bit masks on unsigned words, and the two mask-based roundings built from them.
module Bits {
  import opened Bytes

  function Pow2(n: nat): (p: nat)
    ensures p >= 1
  {
    if n == 0 then 1 else 2 * Pow2(n - 1)
  }

  // Bitwise conjunction of two unsigned numbers.
  function And(x: nat, y: nat): nat {
    if x == 0 || y == 0 then 0
    else 2 * And(x / 2, y / 2) + (if x % 2 == 1 && y % 2 == 1 then 1 else 0)
  }

  // Bitwise complement of a w-bit word.
  function Not(x: nat, w: nat): nat
    requires x < Pow2(w)
  {
    Pow2(w) - 1 - x
  }

  lemma {:induction false} Pow2Add(a: nat, b: nat)
    ensures Pow2(a + b) == Pow2(a) * Pow2(b)
  {
    if a > 0 {
      Pow2Add(a - 1, b);
      assert Pow2(a + b) == 2 * Pow2(a + b - 1);
    }
  }

  lemma {:induction false} Pow2Mono(a: nat, b: nat)
    requires a <= b
    ensures Pow2(a) <= Pow2(b)
  {
    if a < b {
      Pow2Mono(a, b - 1);
    }
  }

  lemma Pow2Words()
    ensures Pow2(7) == 128 && Pow2(16) == 0x1_0000 && Pow2(32) == WORD32 && Pow2(64) == WORD64
  {
    assert Pow2(8) == 256;
    Pow2Add(8, 8);
    Pow2Add(16, 16);
    Pow2Add(32, 32);
  }

  lemma MulMono(p: nat, a: int, b: int)
    requires a <= b
    ensures p * a <= p * b
  {
    assert p * (b - a) >= 0;
    assert p * (b - a) == p * b - p * a;
  }

  // Quotient and remainder are determined by their defining equation.
  lemma DivModUnique(x: int, p: nat, q: int, r: int)
    requires p > 0 && x == p * q + r && 0 <= r < p
    ensures x / p == q && x % p == r
  {
    var q', r' := x / p, x % p;
    assert x == p * q' + r';
    assert p * (q + 1) == p * q + p && p * (q' + 1) == p * q' + p;
    if q' > q {
      MulMono(p, q + 1, q');
    } else if q' < q {
      MulMono(p, q' + 1, q);
    }
  }

  lemma ModDouble(x: nat, p: nat)
    requires p > 0
    ensures x % (2 * p) == 2 * (x / 2 % p) + x % 2
  {
    var h := x / 2;
    var q, r := h / p, h % p;
    assert h == p * q + r;
    assert 2 * h == 2 * p * q + 2 * r;
    DivModUnique(x, 2 * p, q, 2 * r + x % 2);
  }

  // Masking with the low k bits is the remainder modulo 2^k.
  lemma {:induction false} MaskLow(x: nat, k: nat)
    ensures And(x, Pow2(k) - 1) == x % Pow2(k)
  {
    if k > 0 {
      MaskLow(x / 2, k - 1);
      var m := Pow2(k - 1) - 1;
      assert Pow2(k) - 1 == 2 * m + 1;
      MaskWidened(x, m);
    }
  }

  lemma MaskWidened(x: nat, m: nat)
    requires And(x / 2, m) == x / 2 % (m + 1)
    ensures And(x, 2 * m + 1) == x % (2 * (m + 1))
  {
    ModDouble(x, m + 1);
    AndOdd(x, m);
  }

  lemma AndOdd(x: nat, m: nat)
    ensures And(x, 2 * m + 1) == 2 * And(x / 2, m) + x % 2
  {
    assert (2 * m + 1) / 2 == m && (2 * m + 1) % 2 == 1;
  }

  // Masking with the complement of the low k bits of a w-bit word clears that remainder.
  lemma {:induction false} MaskHigh(x: nat, k: nat, w: nat)
    requires k <= w && x < Pow2(w)
    ensures Pow2(k) - 1 < Pow2(w)
    ensures And(x, Not(Pow2(k) - 1, w)) == x - x % Pow2(k)
  {
    Pow2Mono(k, w);
    if k == 0 {
      MaskAll(x, w);
    } else {
      var low, m := Pow2(k - 1), Pow2(w - 1) - Pow2(k - 1);
      Pow2Mono(k - 1, w - 1);
      MaskHigh(x / 2, k - 1, w - 1);
      assert Not(low - 1, w - 1) == m && Not(Pow2(k) - 1, w) == 2 * m;
      MaskDoubled(x, low, m);
    }
  }

  lemma MaskDoubled(x: nat, low: nat, m: nat)
    requires low > 0 && And(x / 2, m) == x / 2 - x / 2 % low
    ensures And(x, 2 * m) == x - x % (2 * low)
  {
    HalvesCleared(x, low);
    AndEven(x, m);
  }

  lemma HalvesCleared(x: nat, p: nat)
    requires p > 0
    ensures 2 * (x / 2 - x / 2 % p) == x - x % (2 * p)
  {
    ModDouble(x, p);
  }

  lemma MaskAll(x: nat, w: nat)
    requires x < Pow2(w)
    ensures And(x, Pow2(w) - 1) == x && x % 1 == 0
  {
    MaskLow(x, w);
    DivModUnique(x, Pow2(w), 0, x);
  }

  lemma AndEven(x: nat, m: nat)
    ensures And(x, 2 * m) == 2 * And(x / 2, m)
  {
    assert 2 * m / 2 == m && 2 * m % 2 == 0;
  }

  // x & ~(2^k - 1) on a w-bit word.
  function ClearLow(x: nat, k: nat, w: nat): (r: nat)
    requires k <= w && x < Pow2(w)
    ensures r == x - x % Pow2(k)
  {
    MaskHigh(x, k, w);
    And(x, Not(Pow2(k) - 1, w))
  }

  lemma MultipleBelow(m: nat, v: nat, p: nat)
    requires p > 0 && m % p == 0 && m <= v
    ensures m <= v - v % p
  {
    var a, b := m / p, v / p;
    assert m == p * a && v == p * b + v % p;
    assert p * (b + 1) == p * b + p;
    if a > b {
      MulMono(p, b + 1, a);
    } else {
      MulMono(p, a, b);
    }
  }

  // Two different multiples of p are at least p apart.
  lemma MultipleGap(a: nat, b: nat, p: nat)
    requires p > 0 && a % p == 0 && b % p == 0 && a < b
    ensures a + p <= b
  {
    MultipleBelow(a, b - 1, p);
    var j := b / p;
    assert b == p * j;
    assert p * (j - 1) == p * j - p;
    DivModUnique(b - 1, p, j - 1, p - 1);
  }

  lemma RoundDownIsGreatest(v: nat, p: nat)
    requires p > 0
    ensures (v - v % p) % p == 0
    ensures forall m: nat :: Multiple(m, p) && m <= v ==> m <= v - v % p
  {
    assert v == p * (v / p) + v % p;
    DivModUnique(v - v % p, p, v / p, 0);
    forall m: nat | Multiple(m, p) && m <= v
      ensures m <= v - v % p
    {
      MultipleBelow(m, v, p);
    }
  }

  // roundUp(value, alignment) on w-bit words: the addition wraps.
  function RoundUpWord(value: nat, k: nat, w: nat): nat
    requires k <= w && value < Pow2(w)
  {
    ClearLow((value + Pow2(k) - 1) % Pow2(w), k, w)
  }

  predicate Multiple(m: nat, p: nat)
    requires p > 0
  {
    m % p == 0
  }

  ghost predicate LeastMultiple(r: nat, value: nat, p: nat)
    requires p > 0
  {
    value <= r && r % p == 0 && forall m: nat :: Multiple(m, p) && value <= m ==> r <= m
  }

  // The result is the least multiple not below the value if and only if the sum does not wrap; when it does, the
  // result is too small.
  lemma RoundUpWordIsLeast(value: nat, k: nat, w: nat)
    requires k <= w && value < Pow2(w)
    ensures LeastMultiple(RoundUpWord(value, k, w), value, Pow2(k)) <==> value + Pow2(k) <= Pow2(w)
    ensures value + Pow2(k) <= Pow2(w) ==> RoundUpWord(value, k, w) < value + Pow2(k)
    ensures value + Pow2(k) > Pow2(w) ==> RoundUpWord(value, k, w) < value
  {
    if value + Pow2(k) <= Pow2(w) {
      UnwrappedSum(value, k, w);
    } else {
      WrappedSum(value, k, w);
    }
  }

  lemma UnwrappedSum(value: nat, k: nat, w: nat)
    requires k <= w && value + Pow2(k) <= Pow2(w)
    ensures LeastMultiple(RoundUpWord(value, k, w), value, Pow2(k)) && RoundUpWord(value, k, w) < value + Pow2(k)
  {
    DivModUnique(value + Pow2(k) - 1, Pow2(w), 0, value + Pow2(k) - 1);
    LeastAbove(value, Pow2(k));
  }

  lemma WrappedSum(value: nat, k: nat, w: nat)
    requires k <= w && value < Pow2(w) < value + Pow2(k)
    ensures RoundUpWord(value, k, w) < value
  {
    Pow2Mono(k, w);
    DivModUnique(value + Pow2(k) - 1, Pow2(w), 1, value + Pow2(k) - 1 - Pow2(w));
  }

  // v + p - 1, cut down to a multiple of p, is the least multiple of p not below v.
  lemma LeastAbove(v: nat, p: nat)
    requires p > 0
    ensures
      var up := v + p - 1 - (v + p - 1) % p;
      && v <= up < v + p && up % p == 0
      && forall m: nat :: Multiple(m, p) && v <= m ==> up <= m
  {
    var up := v + p - 1 - (v + p - 1) % p;
    RoundDownIsGreatest(v + p - 1, p);
    forall m: nat | Multiple(m, p) && v <= m
      ensures up <= m
    {
      if m < up {
        MultipleGap(m, up, p);
      }
    }
  }

  // roundUpToPow2(value, pow2) on w-bit words: the branch avoids adding to an aligned value,
  // and the addition wraps.
  function RoundUpToPow2(value: nat, k: nat, w: nat): nat
    requires k <= w && value < Pow2(w)
  {
    var mask := Pow2(k) - 1;
    if And(value, mask) != 0 then ClearLow((value + mask + 1) % Pow2(w), k, w) else value
  }

  // It is a multiple not below the value exactly when the next multiple still fits in a word.
  lemma RoundUpToPow2Exact(value: nat, k: nat, w: nat)
    requires k <= w && value < Pow2(w)
    ensures
      (value <= RoundUpToPow2(value, k, w) < value + Pow2(k) && RoundUpToPow2(value, k, w) % Pow2(k) == 0)
      <==> (value % Pow2(k) == 0 || value - value % Pow2(k) + Pow2(k) < Pow2(w))
  {
    MaskLow(value, k);
    if value % Pow2(k) != 0 {
      RoundUpToPow2Unaligned(value, k, w);
    }
  }

  lemma RoundUpToPow2Sum(value: nat, k: nat, w: nat)
    requires k <= w && value < Pow2(w) && value % Pow2(k) != 0
    ensures RoundUpToPow2(value, k, w) == (value + Pow2(k)) % Pow2(w) - (value + Pow2(k)) % Pow2(w) % Pow2(k)
  {
    MaskLow(value, k);
  }

  lemma RoundUpToPow2Unaligned(value: nat, k: nat, w: nat)
    requires k <= w && value < Pow2(w)
    requires value % Pow2(k) != 0
    ensures
      var up := value - value % Pow2(k) + Pow2(k);
      && (up < Pow2(w) ==> RoundUpToPow2(value, k, w) == up && up % Pow2(k) == 0)
      && (up >= Pow2(w) ==> RoundUpToPow2(value, k, w) == 0)
  {
    RoundUpToPow2Sum(value, k, w);
    WordIsMultiple(k, w);
    RoundedSum(value, Pow2(k), Pow2(w), RoundUpToPow2(value, k, w));
  }

  lemma RoundedSum(v: nat, p: nat, word: nat, r: int)
    requires p > 0 && word % p == 0 && v < word
    requires r == (v + p) % word - (v + p) % word % p
    ensures
      var up := v - v % p + p;
      && (up < word ==> r == up && up % p == 0)
      && (up >= word ==> r == 0)
  {
    if v - v % p + p < word {
      SumFits(v, p, word);
    } else {
      SumWraps(v, p, word);
    }
  }

  lemma SumFits(v: nat, p: nat, word: nat)
    requires p > 0 && word % p == 0 && v < word && v - v % p + p < word
    ensures (v + p) % word == v + p && (v + p) % p == v % p && (v - v % p + p) % p == 0
  {
    NextMultiple(v, p);
    FitsOrEqual(v, p, word);
    DivModUnique(v + p, word, 0, v + p);
  }

  lemma SumWraps(v: nat, p: nat, word: nat)
    requires p > 0 && word % p == 0 && v < word && v - v % p + p >= word
    ensures (v + p) % word == v % p && v % p % p == v % p
  {
    FitsOrEqual(v, p, word);
    RemainderBelow(v, p);
    DivModUnique(v + p, word, 1, v % p);
    DivModUnique(v % p, p, 0, v % p);
  }

  lemma RemainderBelow(v: nat, p: nat)
    requires p > 0
    ensures v % p <= v && v % p < p
  {
  }

  lemma NextMultiple(v: nat, p: nat)
    requires p > 0
    ensures (v - v % p + p) % p == 0
    ensures (v + p) % p == v % p
  {
    var q, r := v / p, v % p;
    assert v == p * q + r;
    assert p * (q + 1) == p * q + p;
    DivModUnique(p * (q + 1), p, q + 1, 0);
    DivModUnique(v + p, p, q + 1, r);
  }

  // Below a multiple w of p, rounding up either stays below w with room to spare or lands on it.
  lemma FitsOrEqual(v: nat, p: nat, w: nat)
    requires p > 0 && w % p == 0 && v < w
    ensures var up := v - v % p + p; up < w ==> v + p < w
    ensures var up := v - v % p + p; up >= w ==> up == w
  {
    var up := v - v % p + p;
    NextMultiple(v, p);
    RoundDownIsGreatest(v, p);
    if up < w {
      MultipleGap(up, w, p);
    } else {
      MultipleGap(v - v % p, w, p);
    }
  }

  lemma WordIsMultiple(k: nat, w: nat)
    requires k <= w
    ensures Pow2(w) % Pow2(k) == 0
  {
    Pow2Add(k, w - k);
    DivModUnique(Pow2(w), Pow2(k), Pow2(w - k), 0);
  }

  // The low k bits of n are zero.  Said bit by bit, so that users of it meet no division by a variable.
  predicate Aligned(n: nat, k: nat) {
    k == 0 || (n % 2 == 0 && Aligned(n / 2, k - 1))
  }

  lemma {:induction false} AlignedIsMultiple(n: nat, k: nat)
    ensures Aligned(n, k) <==> n % Pow2(k) == 0
  {
    if k > 0 {
      ModDouble(n, Pow2(k - 1));
      AlignedIsMultiple(n / 2, k - 1);
    } else {
      assert n % 1 == 0;
    }
  }

  lemma DoubleAligned(n: nat, k: nat)
    requires Aligned(n, k)
    ensures Aligned(2 * n, k + 1)
  {
    assert 2 * n % 2 == 0 && 2 * n / 2 == n;
  }

  lemma {:induction false} AlignedZero(k: nat)
    ensures Aligned(0, k)
  {
    if k > 0 {
      AlignedZero(k - 1);
    }
  }

  lemma {:induction false} AlignedSum(a: nat, b: nat, k: nat)
    requires Aligned(a, k) && Aligned(b, k)
    ensures Aligned(a + b, k)
  {
    if k > 0 {
      AlignedSum(a / 2, b / 2, k - 1);
      assert (a + b) / 2 == a / 2 + b / 2;
    }
  }

  lemma AlignedScaled(n: nat, k: nat)
    ensures Aligned(Pow2(k) * n, k)
  {
    AlignedIsMultiple(Pow2(k) * n, k);
    DivModUnique(Pow2(k) * n, Pow2(k), n, 0);
  }

  // The two mask-based roundings, said with Aligned.

  lemma ClearLowAligned(x: nat, k: nat, w: nat)
    requires k <= w && x < Pow2(w)
    ensures Aligned(ClearLow(x, k, w), k) && ClearLow(x, k, w) <= x
  {
    RoundDownIsGreatest(x, Pow2(k));
    AlignedIsMultiple(ClearLow(x, k, w), k);
  }

  lemma ClearLowGreatest(x: nat, k: nat, w: nat, m: nat)
    requires k <= w && x < Pow2(w) && Aligned(m, k) && m <= x
    ensures m <= ClearLow(x, k, w)
  {
    AlignedIsMultiple(m, k);
    MultipleBelow(m, x, Pow2(k));
  }

  lemma RoundUpWordAligned(value: nat, k: nat, w: nat)
    requires k <= w && value + Pow2(k) <= Pow2(w)
    ensures Aligned(RoundUpWord(value, k, w), k) && value <= RoundUpWord(value, k, w) < value + Pow2(k)
  {
    UnwrappedSum(value, k, w);
    AlignedIsMultiple(RoundUpWord(value, k, w), k);
  }

  lemma RoundUpWordLeast(value: nat, k: nat, w: nat, m: nat)
    requires k <= w && value + Pow2(k) <= Pow2(w) && Aligned(m, k) && value <= m
    ensures RoundUpWord(value, k, w) <= m
  {
    UnwrappedSum(value, k, w);
    AlignedIsMultiple(m, k);
    assert Multiple(m, Pow2(k));
  }
}
