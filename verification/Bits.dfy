// Masks of unsigned integers, in terms of division by powers of two.
module Bits {

  function Pow2(k: nat): (p: nat)
    ensures p > 0
  {
    if k == 0 then 1 else 2 * Pow2(k - 1)
  }

  // x & y, bit by bit.
  function And(x: nat, y: nat): nat {
    if x == 0 || y == 0 then 0
    else 2 * And(x / 2, y / 2) + if x % 2 == 1 && y % 2 == 1 then 1 else 0
  }

  // Bit i of x is 1.
  predicate Bit(x: nat, i: nat) {
    x / Pow2(i) % 2 == 1
  }

  lemma Doubled(q: nat, p: nat)
    ensures q * (2 * p) == 2 * (q * p) == (2 * q) * p
  {
  }

  lemma {:induction false} Pow2Sum(a: nat, b: nat)
    ensures Pow2(a + b) == Pow2(a) * Pow2(b)
  {
    if a > 0 {
      Pow2Sum(a - 1, b);
      assert a - 1 + b == a + b - 1;
      Doubled(Pow2(a - 1), Pow2(b));
    }
  }

  lemma MulAtMost(a: int, b: int, d: int)
    requires d > 0 && a < b
    ensures a * d + d <= b * d
    decreases b - a
  {
    if a + 1 < b {
      MulAtMost(a, b - 1, d);
    }
    assert b * d == (b - 1) * d + d;
  }

  // q is the quotient of x by d, and m the remainder.
  lemma DivModIs(x: int, d: int, q: int, m: int)
    requires d > 0 && x == q * d + m && 0 <= m < d
    ensures x / d == q && x % d == m
  {
    DivModUnique(d, q, m, x / d, x % d);
  }

  lemma DivModUnique(d: int, q: int, m: int, q': int, m': int)
    requires d > 0 && 0 <= m < d && 0 <= m' < d && q * d + m == q' * d + m'
    ensures q == q' && m == m'
  {
    if q < q' {
      MulAtMost(q, q', d);
    } else if q' < q {
      MulAtMost(q', q, d);
    }
  }

  // ----- bits -----

  lemma HalfThenDivide(x: nat, d: nat)
    requires d > 0
    ensures x / (2 * d) == x / 2 / d
  {
    var q, m := x / 2 / d, x / 2 % d;
    Doubled(q, d);
    DivModIs(x, 2 * d, q, 2 * m + x % 2);
  }

  lemma BitOfHalf(x: nat, i: nat)
    ensures Bit(x, i + 1) == Bit(x / 2, i)
  {
    HalfThenDivide(x, Pow2(i));
  }

  lemma AndHalf(x: nat, y: nat)
    ensures And(x, y) / 2 == And(x / 2, y / 2)
    ensures And(x, y) % 2 == 1 <==> x % 2 == 1 && y % 2 == 1
  {
  }

  lemma BitZero(x: nat)
    ensures Bit(x, 0) <==> x % 2 == 1
  {
  }

  // Masking keeps the bits that both have.
  lemma {:induction false} AndBit(x: nat, y: nat, i: nat)
    ensures Bit(And(x, y), i) <==> Bit(x, i) && Bit(y, i)
    decreases i
  {
    AndHalf(x, y);
    if i == 0 {
      BitZero(x);
      BitZero(y);
      BitZero(And(x, y));
    } else {
      BitOfHalf(x, i - 1);
      BitOfHalf(y, i - 1);
      BitOfHalf(And(x, y), i - 1);
      AndBit(x / 2, y / 2, i - 1);
    }
  }

  lemma NoBit(i: nat)
    ensures !Bit(0, i)
  {
    DivModIs(0, Pow2(i), 0, 0);
  }

  // Masking with one bit leaves nothing exactly when that bit is 0.
  lemma {:induction false} OneBit(x: nat, i: nat)
    ensures And(x, Pow2(i)) != 0 <==> Bit(x, i)
    decreases i
  {
    if x == 0 {
      NoBit(i);
    } else if i > 0 {
      BitOfHalf(x, i - 1);
      AndHalf(x, Pow2(i));
      OneBit(x / 2, i - 1);
    } else {
      BitZero(x);
    }
  }

  // Masking leaves all of y exactly when every bit of y is one of x.
  lemma {:induction false} AndKeepsAll(x: nat, y: nat, w: nat)
    requires y < Pow2(w)
    ensures And(x, y) == y <==> forall i :: 0 <= i < w && Bit(y, i) ==> Bit(x, i)
    decreases w
  {
    if And(x, y) == y {
      forall i | 0 <= i < w && Bit(y, i)
        ensures Bit(x, i)
      {
        AndBit(x, y, i);
      }
    }
    if forall i :: 0 <= i < w && Bit(y, i) ==> Bit(x, i) {
      AndOfIncluded(x, y, w);
    }
  }

  lemma {:induction false} AndOfIncluded(x: nat, y: nat, w: nat)
    requires y < Pow2(w) && forall i :: 0 <= i < w && Bit(y, i) ==> Bit(x, i)
    ensures And(x, y) == y
    decreases w
  {
    if w > 0 {
      forall i | 0 <= i < w - 1 && Bit(y / 2, i)
        ensures Bit(x / 2, i)
      {
        BitOfHalf(x, i);
        BitOfHalf(y, i);
      }
      AndOfIncluded(x / 2, y / 2, w - 1);
      AndHalf(x, y);
      BitZero(x);
      BitZero(y);
    }
  }
}
