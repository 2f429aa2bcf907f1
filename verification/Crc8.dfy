/** CRC-8/AUTOSAR: polynomial 0x2F, most significant bit first, start and final value 0xFF. */
module Crc8 {
  import opened Bytes

  const POLYNOMIAL: byte := 0x2F

  function Shift(c: byte): byte {
    if c >= 0x80 then Xor(2 * c - 0x100, POLYNOMIAL) else 2 * c
  }

  function Shifts(c: byte, n: nat): byte {
    if n == 0 then c else Shift(Shifts(c, n - 1))
  }

  function Update(crc: byte, b: byte): byte {
    Shifts(Xor(crc, b), 8)
  }

  /** The register after a run of bytes. */
  function Feed(crc: byte, data: seq<byte>): byte {
    if data == [] then crc else Update(Feed(crc, data[..|data| - 1]), data[|data| - 1])
  }

  function Crc(data: seq<byte>): byte {
    Xor(Feed(0xFF, data), 0xFF)
  }

  lemma DoubledByte(c: byte)
    ensures (2 * c) % 0x100 == if c >= 0x80 then 2 * c - 0x100 else 2 * c
  {
  }

  method UpdateByte(crc: byte, b: byte) returns (c: byte)
    ensures c == Update(crc, b)
  {
    hide Xor, XorNat;
    c := Xor(crc, b);
    for i := 0 to 8
      invariant c == Shifts(Xor(crc, b), i)
    {
      DoubledByte(c);
      c := if c >= 0x80 then Xor((2 * c) % 0x100, POLYNOMIAL) else (2 * c) % 0x100;
    }
  }

  method Checksum(data: seq<byte>) returns (r: byte)
    ensures r == Crc(data)
  {
    var c: byte := 0xFF;
    for i := 0 to |data|
      invariant c == Feed(0xFF, data[..i])
    {
      assert data[..i + 1][..i] == data[..i];
      c := UpdateByte(c, data[i]);
    }
    assert data[..|data|] == data;
    r := Xor(c, 0xFF);
  }

  // ---- The division register is linear and injective ----------------------------------

  /** Shift on the doubled register, with the bit that leaves it still in place. */
  function Reduce(v: nat): nat {
    if v >= 0x100 then XorNat(v, 0x12F) else v
  }

  lemma ShiftReduces(c: byte)
    ensures Shift(c) == Reduce(2 * c)
  {
    if c >= 0x80 {
      var a := 2 * c - 0x100;
      assert Pow2(8) == 0x100;
      XorAbove(a, 8, 0x100);
      XorAbove(POLYNOMIAL, 8, 0x100);
      XorExchange(0x100, a, 0x100, POLYNOMIAL);
      XorSelf(0x100);
      XorSelf(XorNat(a, POLYNOMIAL));
    }
  }

  /** The top bit of the exclusive-or of two numbers of n + 1 bits. */
  lemma {:induction false} TopBit(x: nat, y: nat, n: nat)
    requires x < 2 * Pow2(n) && y < 2 * Pow2(n)
    ensures XorNat(x, y) >= Pow2(n) <==> ((x >= Pow2(n)) != (y >= Pow2(n)))
  {
    if n > 0 {
      TopBit(x / 2, y / 2, n - 1);
    }
  }

  lemma ReduceLinear(a: nat, b: nat)
    requires a < 0x200 && b < 0x200
    ensures Reduce(XorNat(a, b)) == XorNat(Reduce(a), Reduce(b))
  {
    assert Pow2(8) == 0x100;
    TopBit(a, b, 8);
    XorThrough(a, b, 0x12F);
  }

  lemma ShiftLinear(x: byte, y: byte)
    ensures Shift(Xor(x, y)) == Xor(Shift(x), Shift(y))
  {
    ShiftReduces(x);
    ShiftReduces(y);
    ShiftReduces(Xor(x, y));
    XorStep(x, y, 0, 0);
    ReduceLinear(2 * x, 2 * y);
  }

  lemma XorThrough(a: nat, b: nat, p: nat)
    ensures XorNat(XorNat(a, p), XorNat(b, p)) == XorNat(a, b)
    ensures XorNat(XorNat(a, p), b) == XorNat(XorNat(a, b), p) == XorNat(a, XorNat(b, p))
  {
    XorExchange(a, p, b, p);
    XorSelf(p);
    XorSelf(XorNat(a, b));
    XorAssociates(a, p, b);
    XorAssociates(a, b, p);
    XorCommutes(p, b);
  }

  /** The polynomial is odd, so the low bit tells which branch was taken. */
  lemma ShiftParity(c: byte)
    ensures Shift(c) % 2 == if c >= 0x80 then 1 else 0
  {
  }

  lemma ShiftInjective(x: byte, y: byte)
    ensures Shift(x) == Shift(y) <==> x == y
  {
    ShiftParity(x);
    ShiftParity(y);
    if x >= 0x80 && y >= 0x80 {
      XorInjective(2 * x - 0x100, 2 * y - 0x100, POLYNOMIAL);
    }
  }

  lemma {:induction false} ShiftsLinear(x: byte, y: byte, n: nat)
    ensures Shifts(Xor(x, y), n) == Xor(Shifts(x, n), Shifts(y, n))
  {
    if n > 0 {
      ShiftsLinear(x, y, n - 1);
      ShiftLinear(Shifts(x, n - 1), Shifts(y, n - 1));
    }
  }

  lemma {:induction false} ShiftsInjective(x: byte, y: byte, n: nat)
    ensures Shifts(x, n) == Shifts(y, n) <==> x == y
  {
    if n > 0 {
      ShiftsInjective(x, y, n - 1);
      ShiftInjective(Shifts(x, n - 1), Shifts(y, n - 1));
    }
  }

  lemma UpdateEqual(c: byte, d: byte, a: byte, b: byte)
    ensures Update(c, a) == Update(d, b) <==> Xor(c, a) == Xor(d, b)
  {
    ShiftsInjective(Xor(c, a), Xor(d, b), 8);
  }

  /** Each byte acts on the register as a permutation, and distinct bytes never act alike. */
  lemma UpdateInjective(c: byte, d: byte, a: byte, b: byte)
    ensures Update(c, b) == Update(d, b) <==> c == d
    ensures Update(c, a) == Update(c, b) <==> a == b
  {
    UpdateEqual(c, d, b, b);
    UpdateEqual(c, c, a, b);
    XorInjective(c, d, b);
    XorInjective(a, b, c);
  }

  lemma {:induction false} FeedInjective(c: byte, d: byte, data: seq<byte>)
    ensures Feed(c, data) == Feed(d, data) <==> c == d
  {
    if data != [] {
      var init := data[..|data| - 1];
      FeedInjective(c, d, init);
      UpdateInjective(Feed(c, init), Feed(d, init), 0, data[|data| - 1]);
    }
  }

  lemma {:induction false} FeedConcat(c: byte, a: seq<byte>, b: seq<byte>)
    ensures Feed(c, a + b) == Feed(Feed(c, a), b)
  {
    if b == [] {
      assert a + b == a;
    } else {
      FeedConcat(c, a, b[..|b| - 1]);
      assert (a + b)[..|a + b| - 1] == a + b[..|b| - 1];
    }
  }

  lemma CrcEqual(a: seq<byte>, b: seq<byte>)
    ensures Crc(a) == Crc(b) <==> Feed(0xFF, a) == Feed(0xFF, b)
  {
    XorInjective(Feed(0xFF, a), Feed(0xFF, b), 0xFF);
  }

  // ---- Error detection ----------------------------------------------------------------

  /** Strings that agree before and after two bytes have the same checksum exactly when the
      error in the second byte is the register image of the error in the first. */
  lemma CrcOfTwoByteError(pre: seq<byte>, a: byte, b: byte, a': byte, b': byte, post: seq<byte>)
    ensures Crc(pre + [a, b] + post) == Crc(pre + [a', b'] + post)
       <==> Shifts(Xor(a, a'), 8) == Xor(b, b')
  {
    var c := Feed(0xFF, pre);
    FeedTwo(c, a, b);
    FeedTwo(c, a', b');
    FeedConcat(0xFF, pre + [a, b], post);
    FeedConcat(0xFF, pre + [a', b'], post);
    FeedConcat(0xFF, pre, [a, b]);
    FeedConcat(0xFF, pre, [a', b']);
    FeedInjective(Feed(c, [a, b]), Feed(c, [a', b']), post);
    CrcEqual(pre + [a, b] + post, pre + [a', b'] + post);
    var s, t := Update(c, a), Update(c, a');
    UpdateEqual(s, t, b, b');
    XorQuotient(s, t, b, b');
    ShiftsLinear(Xor(c, a), Xor(c, a'), 8);
    XorExchange(c, a, c, a');
    XorSelf(c);
    XorSelf(XorNat(a, a'));
  }

  lemma FeedTwo(c: byte, a: byte, b: byte)
    ensures Feed(c, [a, b]) == Update(Update(c, a), b)
  {
    assert [a, b][..1] == [a];
    assert Feed(c, [a]) == Update(c, a);
  }

  lemma XorZero(a: nat, b: nat)
    ensures XorNat(a, b) == 0 <==> a == b
  {
    XorInjective(a, b, 0);
  }

  lemma XorQuotient(s: nat, t: nat, b: nat, b': nat)
    ensures XorNat(s, b) == XorNat(t, b') <==> XorNat(s, t) == XorNat(b, b')
  {
    hide XorNat;
    XorZero(XorNat(s, b), XorNat(t, b'));
    XorZero(XorNat(s, t), XorNat(b, b'));
    XorExchange(s, b, t, b');
  }

  /** The set bits of e and f, read as one 16-bit string with e first, lie in the window of 8
      bits that holds the low s bits of e and the high 8 - s bits of f. */
  predicate WithinEight(e: byte, f: byte, s: nat) {
    s <= 8 && e < Pow2(s) && LowBitsClear(f, s)
  }

  predicate LowBitsClear(f: nat, s: nat) {
    s == 0 || (f % 2 == 0 && LowBitsClear(f / 2, s - 1))
  }

  function Doubled(g: nat, n: nat): nat {
    if n == 0 then g else 2 * Doubled(g, n - 1)
  }

  /** While the top bit is clear the register only shifts. */
  lemma {:induction false} PlainShifts(g: byte, n: nat, m: nat)
    requires n + m == 8 && g < Pow2(m)
    ensures Doubled(g, n) < 0x100 && Shifts(g, n) == Doubled(g, n)
  {
    DoubledBound(g, n, m);
    if n > 0 {
      PlainShifts(g, n - 1, m + 1);
    }
  }

  lemma {:induction false} DoubledBound(g: nat, n: nat, m: nat)
    requires g < Pow2(m)
    ensures Doubled(g, n) < Pow2(n + m)
    ensures g > 0 ==> Doubled(g, n) >= Pow2(n)
  {
    if n > 0 {
      DoubledBound(g, n - 1, m);
    }
  }

  lemma {:induction false} Halved(f: nat, s: nat, m: nat) returns (g: nat)
    requires f < Pow2(s + m) && LowBitsClear(f, s)
    ensures f == Doubled(g, s) && g < Pow2(m)
  {
    if s == 0 {
      g := f;
    } else {
      g := Halved(f / 2, s - 1, m);
    }
  }

  lemma {:induction false} ShiftsCompose(c: byte, m: nat, n: nat)
    ensures Shifts(c, m + n) == Shifts(Shifts(c, m), n)
  {
    if n > 0 {
      ShiftsCompose(c, m, n - 1);
    }
  }

  /** The register image of an error of at most 8 consecutive bits never cancels it. */
  lemma ShortBurst(e: byte, f: byte, s: nat)
    requires WithinEight(e, f, s)
    requires Shifts(e, 8) == f
    ensures e == 0 && f == 0
  {
    assert Pow2(8) == 0x100;
    var g := Halved(f, s, 8 - s);
    PlainShifts(g, s, 8 - s);
    PlainShifts(e, 8 - s, s);
    ShiftsCompose(e, 8 - s, s);
    ShiftsInjective(Shifts(e, 8 - s), g, s);
    DoubledBound(e, 8 - s, s);
    DoubledBound(g, s, 8 - s);
  }

  /** Two strings that differ in two neighbouring bytes by at most 8 consecutive bits have
      different checksums. */
  lemma DetectsBurst(pre: seq<byte>, a: byte, b: byte, a': byte, b': byte, post: seq<byte>, s: nat)
    requires (a, b) != (a', b')
    requires WithinEight(Xor(a, a'), Xor(b, b'), s)
    ensures Crc(pre + [a, b] + post) != Crc(pre + [a', b'] + post)
  {
    CrcOfTwoByteError(pre, a, b, a', b', post);
    if Shifts(Xor(a, a'), 8) == Xor(b, b') {
      ShortBurst(Xor(a, a'), Xor(b, b'), s);
      XorInjective(a, a', 0);
      XorInjective(b, b', 0);
    }
  }

  /** Strings with one byte changed: the case where the second byte is intact. */
  lemma DetectsByteError(pre: seq<byte>, a: byte, b: byte, post: seq<byte>)
    requires a != b
    ensures Crc(pre + [a] + post) != Crc(pre + [b] + post)
  {
    var c := Feed(0xFF, pre);
    FeedConcat(0xFF, pre + [a], post);
    FeedConcat(0xFF, pre + [b], post);
    FeedConcat(0xFF, pre, [a]);
    FeedConcat(0xFF, pre, [b]);
    assert Feed(c, [a]) == Update(c, a) && Feed(c, [b]) == Update(c, b);
    UpdateInjective(c, c, a, b);
    FeedInjective(Update(c, a), Update(c, b), post);
    CrcEqual(pre + [a] + post, pre + [b] + post);
  }

  /** A string followed by its checksum always leaves the register in the same state. */
  lemma Residue(x: seq<byte>, c: byte)
    ensures Crc(x) == c <==> Feed(0xFF, x + [c]) == Shifts(0xFF, 8)
  {
    var s := Feed(0xFF, x);
    assert (x + [c])[..|x|] == x;
    ShiftsInjective(Xor(s, c), 0xFF, 8);
    XorCancels(s, c);
    XorCancels(s, 0xFF);
  }
}
