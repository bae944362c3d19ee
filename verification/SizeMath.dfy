// Sizes: mipmap levels, alignment and checked arithmetic.
module SizeMath {
  import opened Machine
  import opened Bits

  // ~x on 64 bits.
  function Not64(x: UInt64): UInt64 {
    SIZE_64 - 1 - x
  }

  lemma Pow2Is64()
    ensures Pow2(64) == SIZE_64
  {
    assert Pow2(8) == 256;
    Pow2Sum(8, 8);
    Pow2Sum(16, 16);
    Pow2Sum(32, 32);
  }

  // ----- shifting -----

  // x >> k
  function Shr(x: nat, k: nat): nat {
    if k == 0 then x else Shr(x / 2, k - 1)
  }

  // The low k bits of x.
  function Low(x: nat, k: nat): (m: nat)
    ensures m < Pow2(k) && m <= x
  {
    if k == 0 then 0 else 2 * Low(x / 2, k - 1) + x % 2
  }

  lemma {:induction false} SplitAt(x: nat, k: nat)
    ensures x == Shr(x, k) * Pow2(k) + Low(x, k)
  {
    if k > 0 {
      var p, q := Pow2(k - 1), Shr(x / 2, k - 1);
      SplitAt(x / 2, k - 1);
      Doubled(q, p);
    }
  }

  // Shifting divides by the power of two, and the low bits are the remainder.
  lemma ShrDivides(x: nat, k: nat)
    ensures Shr(x, k) == x / Pow2(k) && Low(x, k) == x % Pow2(k)
  {
    SplitAt(x, k);
    DivModIs(x, Pow2(k), Shr(x, k), Low(x, k));
  }

  lemma {:induction false} ShrAdds(x: nat, a: nat, b: nat)
    ensures Shr(Shr(x, a), b) == Shr(x, a + b)
    decreases a
  {
    if a > 0 {
      ShrAdds(x / 2, a - 1, b);
    }
  }

  lemma {:induction false} ShrSmall(x: nat, k: nat)
    requires x <= 1
    ensures Shr(x, k) <= x
  {
    if k > 0 {
      ShrSmall(x / 2, k - 1);
    }
  }

  lemma {:induction false} ShrAtMost(x: nat, k: nat)
    ensures Shr(x, k) <= x
  {
    if k > 0 {
      ShrAtMost(x / 2, k - 1);
    }
  }

  // ----- cru_minify -----

  // The size of the level-th mipmap; a shift by 32 or more is not defined.
  function Minify(x: UInt32, levels: nat): UInt32
    requires levels < 32
  {
    ShrAtMost(x, levels);
    if x == 0 then 0 else if 1 < Shr(x, levels) then Shr(x, levels) else 1
  }

  // Zero stays zero, and anything else is halved level by level down to 1.
  lemma MinifyIs(x: UInt32, levels: nat)
    requires levels < 32
    ensures Minify(x, levels) == if x == 0 then 0 else if x < Pow2(levels) then 1 else x / Pow2(levels)
  {
    ShrDivides(x, levels);
    var q := Shr(x, levels);
    SplitAt(x, levels);
    if q == 0 {
      assert x == Low(x, levels);
    } else {
      MulAtMost(0, q, Pow2(levels));
    }
  }

  function MinifyTimes(x: UInt32, n: nat): UInt32 {
    if n == 0 then x else Minify(MinifyTimes(x, n - 1), 1)
  }

  // Minifying by a and then by b is minifying by a + b.
  lemma MinifyAdds(x: UInt32, a: nat, b: nat)
    requires a + b < 32
    ensures Minify(Minify(x, a), b) == Minify(x, a + b)
  {
    ShrAdds(x, a, b);
    ShrSmall(0, b);
    ShrSmall(1, b);
  }

  // One level n times is n levels at once.
  lemma {:induction false} MinifyIterates(x: UInt32, n: nat)
    requires n < 32
    ensures MinifyTimes(x, n) == Minify(x, n)
  {
    if n > 0 {
      MinifyIterates(x, n - 1);
      MinifyAdds(x, n - 1, 1);
    }
  }

  // ----- cru_align_size -----

  function AlignSize(n: UInt64, a: UInt64): UInt64 {
    var r := And(Wrap64(n + a - 1), Not64(Wrap64(a - 1)));
    AndAtMost(Wrap64(n + a - 1), Not64(Wrap64(a - 1)));
    r
  }

  lemma {:induction false} AndAtMost(x: nat, y: nat)
    ensures And(x, y) <= x
  {
    if x != 0 && y != 0 {
      AndAtMost(x / 2, y / 2);
    }
  }

  // Masking with one bits from k to w and zero bits below clears the low k bits.
  lemma {:induction false} AndHighMask(x: nat, w: nat, k: nat)
    requires k <= w && x < Pow2(w)
    ensures Pow2(k) <= Pow2(w) && And(x, Pow2(w) - Pow2(k)) == x - Low(x, k)
    decreases w
  {
    if w > 0 {
      AndHighMask(x / 2, w - 1, if k == 0 then 0 else k - 1);
      var mask := Pow2(w) - Pow2(k);
      if k == 0 {
        assert mask / 2 == Pow2(w - 1) - 1 && mask % 2 == 1;
      } else {
        assert mask / 2 == Pow2(w - 1) - Pow2(k - 1) && mask % 2 == 0;
      }
    }
  }

  // r is a multiple of a, and the first from n on.
  predicate IsLeastMultiple(r: int, n: int, a: int)
    requires a > 0
  {
    r % a == 0 && n <= r < n + a
  }

  lemma LeastMultipleIsLeast(r: int, n: int, a: int, m: int)
    requires a > 0 && IsLeastMultiple(r, n, a) && m % a == 0 && n <= m
    ensures r <= m
  {
    if m / a < r / a {
      MulAtMost(m / a, r / a, a);
    } else if r / a < m / a {
      MulAtMost(r / a, m / a, a);
    }
  }

  lemma MaskIs(a: nat)
    requires 0 < a < SIZE_64
    ensures Not64(Wrap64(a - 1)) == SIZE_64 - a
  {
    WrapsBelow(a - 1);
  }

  lemma AlignIs(n: UInt64, a: UInt64, x: UInt64, mask: nat)
    requires 0 < a && x == Wrap64(n + a - 1) && mask == SIZE_64 - a
    ensures AlignSize(n, a) == And(x, mask)
  {
    MaskIs(a);
  }

  lemma AndMask(x: nat, mask: nat, w: nat, k: nat)
    requires k <= w && x < Pow2(w) && mask == Pow2(w) - Pow2(k)
    ensures And(x, mask) == x - Low(x, k)
  {
    AndHighMask(x, w, k);
  }

  lemma AlignClearsLowBits(n: UInt64, a: UInt64, x: UInt64, k: nat)
    requires k < 64 && a == Pow2(k) && x == Wrap64(n + a - 1)
    ensures AlignSize(n, a) == x - Low(x, k)
  {
    Pow2Is64();
    AlignIs(n, a, x, SIZE_64 - a);
    AndMask(x, SIZE_64 - a, 64, k);
  }

  lemma {:induction false} LowOfSmall(x: nat, k: nat)
    requires x < Pow2(k)
    ensures Low(x, k) == x
  {
    if k > 0 {
      LowOfSmall(x / 2, k - 1);
    }
  }

  lemma HighPartIsMultiple(x: nat, k: nat)
    ensures (x - Low(x, k)) % Pow2(k) == 0
  {
    SplitAt(x, k);
    DivModIs(x - Low(x, k), Pow2(k), Shr(x, k), 0);
  }

  lemma WrapsBelow(x: int)
    requires 0 <= x < 2 * SIZE_64
    ensures Wrap64(x) == if x < SIZE_64 then x else x - SIZE_64
  {
  }

  lemma AlignFits(n: UInt64, a: UInt64, k: nat)
    requires k < 64 && a == Pow2(k) && n + a - 1 < SIZE_64
    ensures IsLeastMultiple(AlignSize(n, a), n, a)
  {
    WrapsBelow(n + a - 1);
    AlignClearsLowBits(n, a, n + a - 1, k);
    HighPartIsMultiple(n + a - 1, k);
  }

  lemma AlignOverflows(n: UInt64, a: UInt64, k: nat)
    requires k < 64 && a == Pow2(k) && n + a - 1 >= SIZE_64
    ensures AlignSize(n, a) == 0 && n > 0
  {
    WrapsBelow(n + a - 1);
    AlignClearsLowBits(n, a, n + a - 1 - SIZE_64, k);
    LowOfSmall(n + a - 1 - SIZE_64, k);
  }

  // For a power of two, aligning gives the least multiple not below n exactly
  // when n + a - 1 does not overflow; when it does, the result is 0.
  lemma AlignIsLeastMultiple(n: UInt64, a: UInt64, k: nat)
    requires k < 64 && a == Pow2(k)
    ensures IsLeastMultiple(AlignSize(n, a), n, a) <==> n + a - 1 < SIZE_64
    ensures n + a - 1 >= SIZE_64 ==> AlignSize(n, a) == 0
  {
    if n + a - 1 < SIZE_64 {
      AlignFits(n, a, k);
    } else {
      AlignOverflows(n, a, k);
    }
  }

  lemma {:induction false} LowOfOnes(x: nat, q: nat, k: nat)
    requires x == q * Pow2(k) + Pow2(k) - 1
    ensures Low(x, k) == Pow2(k) - 1
    decreases k
  {
    if k > 0 {
      var p := Pow2(k - 1);
      var y := q * p + p;
      Doubled(q, p);
      assert x == 2 * y - 1;
      LowOfOnes(x / 2, q, k - 1);
    }
  }

  // A multiple of 2^k below 2^w leaves room for 2^k.
  lemma MultipleFits(q: nat, k: nat, w: nat)
    requires k <= w && q * Pow2(k) < Pow2(w)
    ensures q * Pow2(k) + Pow2(k) <= Pow2(w)
  {
    Pow2Sum(w - k, k);
    var h := Pow2(w - k);
    if q < h {
      MulAtMost(q, h, Pow2(k));
    } else if h < q {
      MulAtMost(h, q, Pow2(k));
    }
  }

  // A multiple of 2^k is left alone.
  lemma AlignKeepsMultiples(r: UInt64, a: UInt64, q: nat, k: nat)
    requires k < 64 && a == Pow2(k) && r == q * a
    ensures AlignSize(r, a) == r
  {
    Pow2Is64();
    MultipleFits(q, k, 64);
    WrapsBelow(r + a - 1);
    LowOfOnes(r + a - 1, q, k);
    AlignClearsLowBits(r, a, r + a - 1, k);
  }

  // Aligning twice is aligning once.
  lemma AlignIdempotent(n: UInt64, a: UInt64, k: nat)
    requires k < 64 && a == Pow2(k)
    ensures AlignSize(AlignSize(n, a), a) == AlignSize(n, a)
  {
    var x := Wrap64(n + a - 1);
    AlignClearsLowBits(n, a, x, k);
    SplitAt(x, k);
    AlignKeepsMultiples(AlignSize(n, a), a, Shr(x, k), k);
  }

  // ----- checked arithmetic -----

  method AddChecked(a: UInt64, b: UInt64) returns (ok: bool, result: UInt64)
    ensures ok <==> a + b < SIZE_64
    ensures ok ==> result == a + b
    ensures !ok ==> result == a + b - SIZE_64
  {
    result := Wrap64(a + b);
    ok := a <= SIZE_64 - 1 - b;
  }

  lemma AtMostQuotient(a: nat, m: nat, b: nat)
    requires b > 0
    ensures a <= m / b <==> a * b <= m
  {
    var q := m / b;
    assert m == q * b + m % b;
    if a < q {
      MulAtMost(a, q, b);
    } else if q < a {
      MulAtMost(q, a, b);
    }
  }

  method MulChecked(a: UInt64, b: UInt64) returns (ok: bool, result: UInt64)
    requires b > 0
    ensures ok <==> a * b < SIZE_64
    ensures ok ==> result == a * b
    ensures result == Wrap64(a * b)
  {
    result := Wrap64(a * b);
    ok := a <= (SIZE_64 - 1) / b;
    AtMostQuotient(a, SIZE_64 - 1, b);
  }
}
