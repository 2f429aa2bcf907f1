/** Octets, and the bitwise exclusive-or on them written with integer arithmetic. */
module Bytes {
  type byte = x: int | 0 <= x < 256

  function Pow2(n: nat): (p: nat)
    ensures p > 0
  {
    if n == 0 then 1 else 2 * Pow2(n - 1)
  }

  /** Exclusive-or, one bit at a time from the least significant. */
  function XorNat(a: nat, b: nat): nat
    decreases a + b
  {
    if a == 0 && b == 0 then 0 else 2 * XorNat(a / 2, b / 2) + (a + b) % 2
  }

  function Xor(a: byte, b: byte): byte {
    XorBound(a, b, 8);
    XorNat(a, b)
  }

  lemma {:induction false} XorBound(a: nat, b: nat, n: nat)
    requires a < Pow2(n) && b < Pow2(n)
    ensures XorNat(a, b) < Pow2(n)
  {
    if n > 0 {
      XorBound(a / 2, b / 2, n - 1);
    }
  }

  lemma {:induction false} XorSelf(a: nat)
    ensures XorNat(a, a) == 0
    ensures XorNat(a, 0) == a == XorNat(0, a)
    decreases a
  {
    if a > 0 {
      XorSelf(a / 2);
    }
  }

  lemma {:induction false} XorCommutes(a: nat, b: nat)
    ensures XorNat(a, b) == XorNat(b, a)
    decreases a + b
  {
    if a + b > 0 {
      XorCommutes(a / 2, b / 2);
    }
  }

  lemma XorHalves(a: nat, b: nat)
    ensures XorNat(a, b) == 2 * XorNat(a / 2, b / 2) + (a + b) % 2
  {
    if a == 0 && b == 0 {
      assert a / 2 == 0 && b / 2 == 0 && (a + b) % 2 == 0;
    }
  }

  lemma HalfOf(x: nat, i: nat)
    requires i < 2
    ensures (2 * x + i) / 2 == x
  {
  }

  lemma ParityOf(x: nat, i: nat, j: nat)
    requires i < 2 && j < 2
    ensures (2 * x + i + j) % 2 == if i == j then 0 else 1
  {
    assert (2 * x + i + j) % 2 == (i + j) % 2;
  }

  lemma XorStep(x: nat, y: nat, i: nat, j: nat)
    requires i < 2 && j < 2
    ensures XorNat(2 * x + i, 2 * y + j) == 2 * XorNat(x, y) + (if i == j then 0 else 1)
  {
    hide *;
    var a, b := 2 * x + i, 2 * y + j;
    XorHalves(a, b);
    HalfOf(x, i);
    HalfOf(y, j);
    ParityOf(x + y, i, j);
    assert a + b == 2 * (x + y) + i + j;
  }

  lemma {:induction false} XorAssociates(a: nat, b: nat, c: nat)
    ensures XorNat(XorNat(a, b), c) == XorNat(a, XorNat(b, c))
    decreases a + b + c
  {
    if a + b + c == 0 {
      XorSelf(0);
    } else {
      var x, y, z := a / 2, b / 2, c / 2;
      XorAssociates(x, y, z);
      AssociatesStep(x, y, z, a - 2 * x, b - 2 * y, c - 2 * z);
    }
  }

  lemma AssociatesStep(x: nat, y: nat, z: nat, i: nat, j: nat, k: nat)
    requires i < 2 && j < 2 && k < 2
    requires XorNat(XorNat(x, y), z) == XorNat(x, XorNat(y, z))
    ensures var a, b, c := 2 * x + i, 2 * y + j, 2 * z + k;
      XorNat(XorNat(a, b), c) == XorNat(a, XorNat(b, c))
  {
    hide XorNat;
    XorStep(x, y, i, j);
    XorStep(y, z, j, k);
    XorStep(XorNat(x, y), z, if i == j then 0 else 1, k);
    XorStep(x, XorNat(y, z), i, if j == k then 0 else 1);
  }

  lemma XorCancels(a: nat, b: nat)
    ensures XorNat(a, XorNat(a, b)) == b
    ensures XorNat(XorNat(b, a), a) == b
  {
    XorAssociates(a, a, b);
    XorAssociates(b, a, a);
    XorSelf(a);
    XorSelf(b);
  }

  lemma XorInjective(a: nat, b: nat, c: nat)
    ensures XorNat(a, c) == XorNat(b, c) <==> a == b
    ensures XorNat(c, a) == XorNat(c, b) <==> a == b
    ensures XorNat(a, b) == 0 <==> a == b
  {
    XorCancels(c, a);
    XorCancels(c, b);
    XorCancels(a, b);
    XorSelf(a);
  }

  lemma XorExchange(a: nat, b: nat, c: nat, d: nat)
    ensures XorNat(XorNat(a, b), XorNat(c, d)) == XorNat(XorNat(a, c), XorNat(b, d))
  {
    XorAssociates(XorNat(a, b), c, d);
    XorAssociates(a, b, c);
    XorCommutes(b, c);
    XorAssociates(a, c, b);
    XorAssociates(XorNat(a, c), b, d);
  }

  /** A power of two above a number is added by exclusive-or. */
  lemma {:induction false} XorAbove(a: nat, n: nat, q: nat)
    requires q == Pow2(n) && a < q
    ensures XorNat(q, a) == q + a
  {
    if n == 0 {
      XorSelf(1);
    } else {
      var x := a / 2;
      XorAbove(x, n - 1, q / 2);
      XorStep(q / 2, x, 0, a - 2 * x);
    }
  }

  // ---- Quotients ----------------------------------------------------------------------

  lemma SmallMultiple(d: int, m: int)
    requires m > 0 && -m < d * m < m
    ensures d == 0
  {
    assert d >= 1 ==> d * m >= m;
    assert d <= -1 ==> d * m <= -m;
  }

  lemma QuotientGap(a: int, q: int, m: int)
    ensures (a - q) * m == a * m - q * m
  {
  }

  /** Quotient and remainder are the only pair that adds up. */
  lemma DivisionIs(x: int, m: int, q: int, r: int)
    requires 0 <= r < m && x == q * m + r
    ensures x / m == q && x % m == r
  {
    var a := x / m;
    assert x == a * m + x % m;
    QuotientGap(a, q, m);
    SmallMultiple(a - q, m);
  }
}
