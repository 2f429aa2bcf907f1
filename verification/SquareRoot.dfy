/** The two bit-by-bit integer square roots of the firmware. */
module SquareRoot {
  import opened Bytes

  const WORD := 0x1_0000_0000

  /** A 32-bit variable: whatever is stored in one has been proved to fit. */
  type u32 = x: int | 0 <= x < 0x1_0000_0000

  predicate IsRoot(r: nat, x: nat) { r * r <= x < (r + 1) * (r + 1) }

  lemma RootUnique(r: nat, q: nat, x: nat)
    requires IsRoot(r, x) && IsRoot(q, x)
    ensures r == q
  {
    RootBelow(r, q, x);
    RootBelow(q, r, x);
  }

  lemma RootBelow(r: nat, q: nat, x: nat)
    requires IsRoot(r, x) && IsRoot(q, x)
    ensures r <= q
  {
    if r >= q + 1 {
      SquareBelow(q + 1, r);
    }
  }

  /** The root, found by counting. */
  function Root(x: nat): (r: nat)
    ensures IsRoot(r, x)
  {
    if x == 0 then 0
    else
      var r := Root(x - 1);
      if (r + 1) * (r + 1) <= x then r + 1 else r
  }

  /** What holds while bit p of the root R is still to be decided: r is twice R times p, the remainder
      is what R leaves, and p can be added at most once. */
  ghost predicate Deciding(x0: nat, root: nat, p: nat, r: nat, x: nat, b: nat) {
    && b == p * p && r == 2 * (root * p) && x == x0 - root * root && root * root <= x0
    && x0 < (root + 2 * p) * (root + 2 * p) && root + 2 * p <= 0x1_0000
  }

  lemma Expand(a: int, b: int)
    ensures (a + b) * (a + b) == a * a + 2 * (a * b) + b * b
  {
  }

  lemma SquareBelow(a: nat, b: nat)
    requires a <= b
    ensures a * a <= b * b
  {
  }

  /** The sums the loops form stay in 32 bits. */
  lemma NoOverflow(x0: nat, root: nat, p: nat, r: nat, x: nat, b: nat)
    requires Deciding(x0, root, p, r, x, b) && p >= 1
    ensures r + b < WORD && r + 2 * b < WORD
  {
    Expand(root, p);
    SquareBelow(root + p, 0xFFFF);
    assert r + b <= (root + p) * (root + p);
    assert r + 2 * b == 2 * ((root + p) * p) by { assert (root + p) * p == root * p + p * p; }
    assert (root + p) * p <= 0xFFFF * 0x8000 by { ProductBelow(root + p, 0xFFFF, p, 0x8000); }
  }

  lemma ProductBelow(a: nat, b: nat, c: nat, d: nat)
    requires a <= b && c <= d
    ensures a * c <= b * d
  {
    assert a * c <= b * c;
    assert b * c <= b * d;
  }

  /** The bit is taken exactly when its square still fits. */
  lemma Decide(x0: nat, root: nat, p: nat, r: nat, x: nat, b: nat)
    requires Deciding(x0, root, p, r, x, b) && p >= 1
    ensures x >= r + b <==> (root + p) * (root + p) <= x0
    ensures x >= r + b ==> x - (r + b) == x0 - (root + p) * (root + p) && r / 2 + b == (root + p) * p
    ensures r / 2 == root * p
  {
    Expand(root, p);
    assert (root + p) * p == root * p + p * p;
  }

  /** From a decided bit p to the next lower one. */
  lemma Lower(x0: nat, root: nat, p: nat, half: nat)
    requires root * root <= x0 < (root + p) * (root + p) && root + p <= 0x1_0000 && p == 2 * half
    ensures Deciding(x0, root, half, root * p, x0 - root * root, p * p / 4)
  {
    assert root * p == 2 * (root * half);
    assert p * p == 4 * (half * half);
  }

  lemma PowTop()
    ensures Pow2(15) == 0x8000
  {
    assert Pow2(5) == 32;
    assert Pow2(10) == 1024;
  }

  lemma HalfBit(p: nat, k: nat, b: nat)
    requires p == Pow2(k) && b == p * p && k > 0
    ensures p == 2 * Pow2(k - 1) && b == 4 * (Pow2(k - 1) * Pow2(k - 1)) && Pow2(k - 1) * Pow2(k - 1) >= 1
  {
    var half := Pow2(k - 1);
    assert p == 2 * half;
    assert p * p == 4 * (half * half);
    SquareBelow(1, half);
  }

  /** Skipping a bit whose square is too large. */
  lemma ShiftDown(x0: nat, p: nat, k: nat, b: nat)
    requires Deciding(x0, 0, p, 0, x0, b) && p == Pow2(k) && b > x0
    ensures k == 0 ==> b / 4 == 0 && x0 == 0
    ensures k > 0 ==> Deciding(x0, 0, p / 2, 0, x0, b / 4) && p / 2 == Pow2(k - 1) && b / 4 > 0
  {
    if k > 0 {
      var half := Pow2(k - 1);
      HalfBit(p, k, b);
      hide Pow2;
      assert b / 4 == half * half && p / 2 == half;
      assert (2 * half) * (2 * half) == b by { assert p * p == b; }
    } else {
      assert p == 1 && b == 1;
    }
  }

  lemma NextBit(x0: nat, root: nat, p: nat, k: nat, b: nat)
    requires root * root <= x0 < (root + p) * (root + p) && root + p <= 0x1_0000 && p == Pow2(k) && b == p * p
    ensures k == 0 ==> b / 4 == 0 && root * p == root && IsRoot(root, x0)
    ensures k > 0 ==>
      Deciding(x0, root, p / 2, root * p, x0 - root * root, b / 4) && p / 2 == Pow2(k - 1) && b / 4 > 0 && b / 4 < b
  {
    if k > 0 {
      var half := Pow2(k - 1);
      HalfBit(p, k, b);
      hide Pow2, Deciding, IsRoot;
      Lower(x0, root, p, half);
      assert p / 2 == half && b / 4 == half * half && p * p / 4 == b / 4;
    } else {
      assert p == 1 && b == 1;
    }
  }

  /** One round of either loop. */
  lemma Round(x0: nat, root: nat, p: nat, k: nat, r: nat, x: nat, b: nat)
    requires Deciding(x0, root, p, r, x, b) && p == Pow2(k) && b > 0
    ensures r + b < WORD && r + 2 * b < WORD && (r + 2 * b) / 2 == r / 2 + b
    ensures var taken := x >= r + b;
      var root1 := if taken then root + p else root;
      var x1: int := if taken then x - (r + b) else x;
      var r1 := if taken then r / 2 + b else r / 2;
      && x1 >= 0
      && (k == 0 ==> b / 4 == 0 && r1 == root1 && IsRoot(root1, x0))
      && (k > 0 ==> Deciding(x0, root1, p / 2, r1, x1, b / 4) && p / 2 == Pow2(k - 1) && 0 < b / 4 < b)
  {
    NoOverflow(x0, root, p, r, x, b);
    Decide(x0, root, p, r, x, b);
    var root1 := if x >= r + b then root + p else root;
    assert root1 + p <= 0x1_0000 && root1 * root1 <= x0 < (root1 + p) * (root1 + p);
    NextBit(x0, root1, p, k, b);
  }

  lemma TopStart(x0: nat)
    requires x0 < WORD
    ensures Deciding(x0, 0, 0x8000, 0, x0, 0x4000_0000)
  {
    assert 0x8000 * 0x8000 == 0x4000_0000 && 0x1_0000 * 0x1_0000 == 0x1_0000_0000;
  }

  /** The loop that finds the highest bit worth trying. */
  method TopBit(x0: u32) returns (b: u32, ghost p: nat, ghost k: nat)
    ensures b > 0 ==> Deciding(x0, 0, p, 0, x0, b) && p == Pow2(k)
    ensures b == 0 ==> x0 == 0
  {
    hide Deciding, Pow2;
    b, p, k := 0x4000_0000, 0x8000, 15;
    PowTop();
    TopStart(x0);
    while b > x0
      invariant b > 0 ==> Deciding(x0, 0, p, 0, x0, b) && p == Pow2(k)
      invariant b == 0 ==> x0 == 0
      decreases b
    {
      ShiftDown(x0, p, k, b);
      b := b / 4;
      p, k := p / 2, if k > 0 then k - 1 else 0;
    }
  }

  lemma RootOfZero()
    ensures IsRoot(0, 0)
  {
  }

  lemma RootIs(r: nat, x: nat)
    requires x < WORD && IsRoot(r, x)
    ensures r == Root(x) && r < 0x1_0000
  {
    RootUnique(r, Root(x), x);
    if r >= 0x1_0000 {
      SquareBelow(0x1_0000, r);
    }
  }

  /** The SAMD21 routine: exact for every 32-bit input, every sum in 32 bits. */
  method Isqrt32(x0: u32) returns (r: u32)
    ensures r == Root(x0) && IsRoot(r, x0) && r < 0x1_0000
  {
    hide Deciding, Pow2, IsRoot, Root;
    var x: u32 := x0;
    r := 0;
    ghost var root: nat := 0;
    var b: u32;
    ghost var p: nat, k: nat;
    b, p, k := TopBit(x0);
    RootOfZero();
    while b != 0
      invariant b > 0 ==> Deciding(x0, root, p, r, x, b) && p == Pow2(k)
      invariant b == 0 ==> r == root && IsRoot(root, x0)
      decreases b
    {
      Round(x0, root, p, k, r, x, b);
      var sum: u32 := r + b;
      if x >= sum {
        x := x - sum;
        r := r / 2 + b;
        root := root + p;
      } else {
        r := r / 2;
      }
      b := b / 4;
      p, k := p / 2, if k > 0 then k - 1 else 0;
    }
    RootIs(r, x0);
  }

  /** The bus controller's routine, which adds twice the bit before halving: the same root, in 32 bits
      and then in 16. */
  method IsqrtPico(v: u32) returns (res: u32)
    ensures res == Root(v) && IsRoot(res, v) && res < 0x1_0000
  {
    hide Deciding, Pow2, IsRoot, Root;
    var op: u32 := v;
    res := 0;
    ghost var root: nat := 0;
    var one: u32;
    ghost var p: nat, k: nat;
    one, p, k := TopBit(v);
    RootOfZero();
    while one != 0
      invariant one > 0 ==> Deciding(v, root, p, res, op, one) && p == Pow2(k)
      invariant one == 0 ==> res == root && IsRoot(root, v)
      decreases one
    {
      Round(v, root, p, k, res, op, one);
      var sum: u32 := res + one;
      if op >= sum {
        op := op - sum;
        res := res + 2 * one;
        root := root + p;
      }
      res := res / 2;
      one := one / 4;
      p, k := p / 2, if k > 0 then k - 1 else 0;
    }
    RootIs(res, v);
  }
}
