/** Bitwise operators of unbounded integers, negative ones in two's complement, told in terms of division. */
module BitArithmetic {
  import opened Arithmetic

  function Abs(a: int): nat {
    if a < 0 then -a else a
  }

  function BitAnd(a: int, b: int): int
    decreases Abs(a) + Abs(b)
  {
    if a == 0 || b == 0 then 0
    else if a == -1 then b
    else if b == -1 then a
    else 2 * BitAnd(a / 2, b / 2) + (if a % 2 == 1 && b % 2 == 1 then 1 else 0)
  }

  function BitOr(a: int, b: int): int
    decreases Abs(a) + Abs(b)
  {
    if a == -1 || b == -1 then -1
    else if a == 0 then b
    else if b == 0 then a
    else 2 * BitOr(a / 2, b / 2) + (if a % 2 == 1 || b % 2 == 1 then 1 else 0)
  }

  function ShiftLeft(a: int, k: nat): int {
    a * Pow2(k)
  }

  /** The mask of the top bits: all ones shifted left, cut to the width. */
  function Mask(width: nat, prefix: nat): int
    requires prefix <= width
  {
    if prefix == 0 then 0 else BitAnd(ShiftLeft(-1, width - prefix), ShiftLeft(1, width) - 1)
  }

  /** Bit k of the two's-complement form. */
  predicate Bit(a: int, k: nat)
    decreases k
  {
    if k == 0 then a % 2 == 1 else Bit(a / 2, k - 1)
  }

  lemma {:induction false} ConstantBits(k: nat)
    ensures !Bit(0, k) && Bit(-1, k)
  {
    if k > 0 {
      ConstantBits(k - 1);
    }
  }

  /** The conjunction has exactly the bits that both have. */
  lemma {:induction false} AndIsBitwise(a: int, b: int, k: nat)
    ensures Bit(BitAnd(a, b), k) <==> Bit(a, k) && Bit(b, k)
    decreases k
  {
    ConstantBits(k);
    if k > 0 {
      AndIsBitwise(a / 2, b / 2, k - 1);
    }
  }

  /** The disjunction has exactly the bits that one of them has. */
  lemma {:induction false} OrIsBitwise(a: int, b: int, k: nat)
    ensures Bit(BitOr(a, b), k) <==> Bit(a, k) || Bit(b, k)
    decreases k
  {
    ConstantBits(k);
    if k > 0 {
      OrIsBitwise(a / 2, b / 2, k - 1);
    }
  }

  lemma ShiftDoubles(x: nat, k: nat)
    requires k > 0
    ensures ShiftLeft(x, k) == 2 * ShiftLeft(x, k - 1)
  {
    assert x * (2 * Pow2(k - 1)) == 2 * (x * Pow2(k - 1));
  }

  /** One step of the disjunction with an even number. */
  lemma OrStep(a: nat, n: nat)
    ensures BitOr(2 * a, n) == 2 * BitOr(a, n / 2) + n % 2
  {
  }

  lemma {:induction false} OrFillsLowBits(x: nat, n: nat, k: nat)
    requires n < Pow2(k)
    ensures BitOr(ShiftLeft(x, k), n) == ShiftLeft(x, k) + n
  {
    if k > 0 {
      OrFillsLowBits(x, n / 2, k - 1);
      ShiftDoubles(x, k);
      OrStep(ShiftLeft(x, k - 1), n);
    }
  }

  /** Shifted ones cut to the width: the ones of the top bits. */
  lemma {:induction false} MaskValue(width: nat, low: nat)
    requires low <= width
    ensures BitAnd(ShiftLeft(-1, low), ShiftLeft(1, width) - 1) == Pow2(width) - Pow2(low)
  {
    if low > 0 {
      MaskValue(width - 1, low - 1);
      assert (0 - Pow2(low)) / 2 == 0 - Pow2(low - 1);
      assert (Pow2(width) - 1) / 2 == Pow2(width - 1) - 1;
    }
  }

  /** Masking keeps the top bits: it clears the remainder by the power of two below them. */
  lemma {:induction false} MaskClearsLow(x: nat, width: nat, low: nat)
    requires low <= width && x < Pow2(width)
    ensures BitAnd(x, Pow2(width) - Pow2(low)) == Pow2(low) * (x / Pow2(low))
  {
    if low == 0 {
      OnesKeep(x, width);
    } else {
      MaskClearsLow(x / 2, width - 1, low - 1);
      MaskHalves(width, low);
      ClearsOneMore(x, Pow2(low - 1), Pow2(width) - Pow2(low));
    }
  }

  lemma ClearsOneMore(x: nat, half: nat, mask: nat)
    requires half > 0 && mask % 2 == 0 && BitAnd(x / 2, mask / 2) == half * (x / 2 / half)
    ensures BitAnd(x, mask) == (2 * half) * (x / (2 * half))
  {
    AndHalves(x, mask);
    HalvedMultiple(x, half);
  }

  lemma {:induction false} Pow2Monotone(m: nat, n: nat)
    requires m <= n
    ensures Pow2(m) <= Pow2(n)
  {
    if m < n {
      Pow2Monotone(m, n - 1);
    }
  }

  lemma MaskHalves(width: nat, low: nat)
    requires 0 < low <= width
    ensures var mask := Pow2(width) - Pow2(low); mask >= 0 && mask % 2 == 0 && mask / 2 == Pow2(width - 1) - Pow2(low - 1)
  {
    Pow2Monotone(low, width);
  }

  lemma HalvedMultiple(x: nat, half: nat)
    requires half > 0
    ensures 2 * (half * (x / 2 / half)) == (2 * half) * (x / (2 * half))
  {
    HalveFirst(x, half);
    Doubled(half, x / 2 / half);
  }

  lemma Doubled(d: nat, q: int)
    ensures 2 * (d * q) == (2 * d) * q
  {
  }

  /** One step of the conjunction with an even, non-negative number. */
  lemma AndHalves(x: nat, mask: nat)
    requires mask % 2 == 0
    ensures BitAnd(x, mask) == 2 * BitAnd(x / 2, mask / 2)
  {
  }

  lemma {:induction false} OnesKeep(x: nat, width: nat)
    requires x < Pow2(width)
    ensures BitAnd(x, Pow2(width) - 1) == x
  {
    if width > 0 {
      OnesKeep(x / 2, width - 1);
      assert (Pow2(width) - 1) / 2 == Pow2(width - 1) - 1;
    }
  }

  lemma MulMono(d: nat, x: int, y: int)
    requires x <= y
    ensures d * x <= d * y
  {
    assert d * y == d * x + d * (y - x);
  }

  lemma QuotientIs(a: nat, d: nat, q: nat, r: nat)
    requires d > 0 && a == d * q + r && r < d
    ensures a / d == q
  {
    var p := a / d;
    assert a == d * p + a % d;
    assert d * (p + 1) == d * p + d && d * (q + 1) == d * q + d;
    if p < q {
      MulMono(d, p + 1, q);
    } else if q < p {
      MulMono(d, q + 1, p);
    }
  }

  lemma HalveFirst(a: nat, d: nat)
    requires d > 0
    ensures a / (2 * d) == a / 2 / d
  {
    var h := a / 2;
    var p, t := h / d, h % d;
    assert h == d * p + t;
    assert 2 * (d * p) == (2 * d) * p;
    QuotientIs(a, 2 * d, p, 2 * t + a % 2);
  }

  lemma {:induction false} ShiftedTwice(a: nat, low: nat, more: nat)
    ensures a / Pow2(low + more) == a / Pow2(low) / Pow2(more)
  {
    if low > 0 {
      HalveFirst(a, Pow2(low + more - 1));
      HalveFirst(a, Pow2(low - 1));
      ShiftedTwice(a / 2, low - 1, more);
    }
  }

  /** Two addresses agree under the mask exactly when they agree on their top bits. */
  lemma MaskedEqualIff(x: nat, y: nat, width: nat, prefix: nat)
    requires prefix <= width && x < Pow2(width) && y < Pow2(width)
    ensures BitAnd(x, Mask(width, prefix)) == BitAnd(y, Mask(width, prefix)) <==>
            x / Pow2(width - prefix) == y / Pow2(width - prefix)
  {
    var d := Pow2(width - prefix);
    if prefix == 0 {
      QuotientIs(x, d, 0, x);
      QuotientIs(y, d, 0, y);
    } else {
      MaskValue(width, width - prefix);
      MaskClearsLow(x, width, width - prefix);
      MaskClearsLow(y, width, width - prefix);
      SameMultiple(d, x / d, y / d);
    }
  }

  lemma SameMultiple(d: nat, p: int, q: int)
    requires d > 0
    ensures d * p == d * q <==> p == q
  {
    assert d * (p + 1) == d * p + d && d * (q + 1) == d * q + d;
    if p < q {
      MulMono(d, p + 1, q);
    } else if q < p {
      MulMono(d, q + 1, p);
    }
  }

  /** Agreement on the top bits includes agreement on fewer of them. */
  lemma FewerBitsAgree(x: nat, y: nat, low: nat, more: nat)
    requires x / Pow2(low) == y / Pow2(low)
    ensures x / Pow2(low + more) == y / Pow2(low + more)
  {
    ShiftedTwice(x, low, more);
    ShiftedTwice(y, low, more);
  }
}
