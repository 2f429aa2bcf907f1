/** The checksum as it is published: how one bit is taken off, the residue, and the check value of the
    digits 1 to 9. */
module Crc8Reference {
  import opened Bytes
  import opened Crc8

  lemma FlipHigh(f: nat, b5: nat, b4: nat, b3: nat)
    requires b5 < 2 && b4 < 2 && b3 < 2
    ensures XorNat(8 * f + 4 * b5 + 2 * b4 + b3, 5) == 8 * f + 4 * (1 - b5) + 2 * b4 + (1 - b3)
  {
    hide *;
    XorSelf(f);
    XorStep(f, 0, b5, 1);
    XorStep(2 * f + b5, 1, b4, 0);
    XorStep(4 * f + 2 * b5 + b4, 2, b3, 1);
  }

  lemma FlipLow(h: nat, g: nat, b2: nat, b1: nat)
    requires b2 < 2 && b1 < 2 && XorNat(h, 5) == g
    ensures XorNat(8 * h + 4 * b2 + 2 * b1, 0x2F) == 8 * g + 4 * (1 - b2) + 2 * (1 - b1) + 1
  {
    hide *;
    XorStep(h, 5, b2, 1);
    XorStep(2 * h + b2, 11, b1, 1);
    XorStep(4 * h + 2 * b2 + b1, 23, 0, 1);
  }

  /** A set top bit is shifted out and takes bits 5, 3, 2, 1 and 0 off: the polynomial is
      x^8 + x^5 + x^3 + x^2 + x + 1. */
  lemma TopBitOn(f: nat, b5: nat, b4: nat, b3: nat, b2: nat, b1: nat)
    requires f < 4 && b5 < 2 && b4 < 2 && b3 < 2 && b2 < 2 && b1 < 2
    ensures Shift(128 + 32 * f + 16 * b5 + 8 * b4 + 4 * b3 + 2 * b2 + b1) ==
      64 * f + 32 * (1 - b5) + 16 * b4 + 8 * (1 - b3) + 4 * (1 - b2) + 2 * (1 - b1) + 1
  {
    hide XorNat;
    FlipHigh(f, b5, b4, b3);
    FlipLow(8 * f + 4 * b5 + 2 * b4 + b3, 8 * f + 4 * (1 - b5) + 2 * b4 + (1 - b3), b2, b1);
  }

  /** A clear one is shifted out. */
  lemma TopBitOff(c: byte)
    requires c < 128
    ensures Shift(c) == 2 * c
  {
  }

  lemma On(s: byte, n: nat, f: nat, b5: nat, b4: nat, b3: nat, b2: nat, b1: nat)
    requires f < 4 && b5 < 2 && b4 < 2 && b3 < 2 && b2 < 2 && b1 < 2
    requires Shifts(s, n) == 128 + 32 * f + 16 * b5 + 8 * b4 + 4 * b3 + 2 * b2 + b1
    ensures Shifts(s, n + 1) == 64 * f + 32 * (1 - b5) + 16 * b4 + 8 * (1 - b3) + 4 * (1 - b2) + 2 * (1 - b1) + 1
  {
    hide Shift;
    TopBitOn(f, b5, b4, b3, b2, b1);
  }

  lemma Off(s: byte, n: nat, c: byte)
    requires c < 128 && Shifts(s, n) == c
    ensures Shifts(s, n + 1) == 2 * c
  {
    hide Shift;
    TopBitOff(c);
  }

  lemma None(s: byte)
    ensures Shifts(s, 0) == s
  {
  }

  /** The residue that a string and its checksum leave. */
  lemma ResidueIs()
    ensures Shifts(0xFF, 8) == 0x42
  {
    hide *;
    None(0xFF);
    On(0xFF, 0, 3, 1, 1, 1, 1, 1);
    On(0xFF, 1, 2, 1, 0, 0, 0, 1);
    On(0xFF, 2, 0, 0, 1, 1, 0, 1);
    Off(0xFF, 3, 0x35);
    Off(0xFF, 4, 0x6A);
    On(0xFF, 5, 2, 1, 0, 1, 0, 0);
    On(0xFF, 6, 0, 0, 0, 1, 1, 1);
    Off(0xFF, 7, 0x21);
  }

  // ---- The check value ----------------------------------------------------------------

  lemma Quarters(x: nat, y: nat, i: nat, j: nat, k: nat, l: nat)
    requires i < 2 && j < 2 && k < 2 && l < 2
    ensures XorNat(4 * x + 2 * i + j, 4 * y + 2 * k + l) ==
      4 * XorNat(x, y) + (if i == k then 0 else 2) + (if j == l then 0 else 1)
  {
    hide *;
    XorStep(x, y, i, k);
    XorStep(2 * x + i, 2 * y + k, j, l);
  }

  /** One digit taken in: the register before, what the digit makes of it, and the register after. */
  lemma Took(c: byte, x: byte, d: byte, digits: seq<byte>, r: byte)
    requires Feed(0xFF, digits) == c && XorNat(c, d) == x && Shifts(x, 8) == r
    ensures Feed(0xFF, digits + [d]) == r
  {
    hide XorNat, Shifts;
    assert (digits + [d])[..|digits|] == digits;
  }

  lemma Digit1()
    ensures XorNat(0xFF, 0x31) == 0xCE && Shifts(0xCE, 8) == 0xB0
  {
    hide *;
    XorSelf(0);
    Quarters(0x00, 0x00, 1, 1, 0, 0);
    Quarters(0x03, 0x00, 1, 1, 1, 1);
    Quarters(0x0F, 0x03, 1, 1, 0, 0);
    Quarters(0x3F, 0x0C, 1, 1, 0, 1);
    None(0xCE);
    On(0xCE, 0, 2, 0, 1, 1, 1, 0);
    On(0xCE, 1, 1, 1, 0, 0, 1, 1);
    Off(0xCE, 2, 0x49);
    On(0xCE, 3, 0, 1, 0, 0, 1, 0);
    Off(0xCE, 4, 0x0B);
    Off(0xCE, 5, 0x16);
    Off(0xCE, 6, 0x2C);
    Off(0xCE, 7, 0x58);
  }

  lemma Digit2()
    ensures XorNat(0xB0, 0x32) == 0x82 && Shifts(0x82, 8) == 0xBD
  {
    hide *;
    XorSelf(0);
    Quarters(0x00, 0x00, 1, 0, 0, 0);
    Quarters(0x02, 0x00, 1, 1, 1, 1);
    Quarters(0x0B, 0x03, 0, 0, 0, 0);
    Quarters(0x2C, 0x0C, 0, 0, 1, 0);
    None(0x82);
    On(0x82, 0, 0, 0, 0, 0, 1, 0);
    Off(0x82, 1, 0x2B);
    Off(0x82, 2, 0x56);
    On(0x82, 3, 1, 0, 1, 1, 0, 0);
    Off(0x82, 4, 0x77);
    On(0x82, 5, 3, 0, 1, 1, 1, 0);
    On(0x82, 6, 3, 1, 0, 0, 1, 1);
    On(0x82, 7, 2, 0, 1, 0, 0, 1);
  }

  lemma Digit3()
    ensures XorNat(0xBD, 0x33) == 0x8E && Shifts(0x8E, 8) == 0x56
  {
    hide *;
    XorSelf(0);
    Quarters(0x00, 0x00, 1, 0, 0, 0);
    Quarters(0x02, 0x00, 1, 1, 1, 1);
    Quarters(0x0B, 0x03, 1, 1, 0, 0);
    Quarters(0x2F, 0x0C, 0, 1, 1, 1);
    None(0x8E);
    On(0x8E, 0, 0, 0, 1, 1, 1, 0);
    Off(0x8E, 1, 0x33);
    Off(0x8E, 2, 0x66);
    On(0x8E, 3, 2, 0, 1, 1, 0, 0);
    On(0x8E, 4, 1, 1, 0, 1, 1, 1);
    Off(0x8E, 5, 0x41);
    On(0x8E, 6, 0, 0, 0, 0, 1, 0);
    Off(0x8E, 7, 0x2B);
  }

  lemma Digit4()
    ensures XorNat(0x56, 0x34) == 0x62 && Shifts(0x62, 8) == 0xCB
  {
    hide *;
    XorSelf(0);
    Quarters(0x00, 0x00, 0, 1, 0, 0);
    Quarters(0x01, 0x00, 0, 1, 1, 1);
    Quarters(0x05, 0x03, 0, 1, 0, 1);
    Quarters(0x15, 0x0D, 1, 0, 0, 0);
    None(0x62);
    Off(0x62, 0, 0x62);
    On(0x62, 1, 2, 0, 0, 1, 0, 0);
    On(0x62, 2, 1, 0, 0, 1, 1, 1);
    Off(0x62, 3, 0x61);
    On(0x62, 4, 2, 0, 0, 0, 1, 0);
    On(0x62, 5, 1, 0, 1, 0, 1, 1);
    Off(0x62, 6, 0x79);
    On(0x62, 7, 3, 1, 0, 0, 1, 0);
  }

  lemma Digit5()
    ensures XorNat(0xCB, 0x35) == 0xFE && Shifts(0xFE, 8) == 0x6D
  {
    hide *;
    XorSelf(0);
    Quarters(0x00, 0x00, 1, 1, 0, 0);
    Quarters(0x03, 0x00, 0, 0, 1, 1);
    Quarters(0x0C, 0x03, 1, 0, 0, 1);
    Quarters(0x32, 0x0D, 1, 1, 0, 1);
    None(0xFE);
    On(0xFE, 0, 3, 1, 1, 1, 1, 0);
    On(0xFE, 1, 2, 1, 0, 0, 1, 1);
    On(0xFE, 2, 0, 0, 1, 0, 0, 1);
    Off(0xFE, 3, 0x3D);
    Off(0xFE, 4, 0x7A);
    On(0xFE, 5, 3, 1, 0, 1, 0, 0);
    On(0xFE, 6, 2, 0, 0, 1, 1, 1);
    On(0xFE, 7, 1, 0, 0, 0, 0, 1);
  }

  lemma Digit6()
    ensures XorNat(0x6D, 0x36) == 0x5B && Shifts(0x5B, 8) == 0x6E
  {
    hide *;
    XorSelf(0);
    Quarters(0x00, 0x00, 0, 1, 0, 0);
    Quarters(0x01, 0x00, 1, 0, 1, 1);
    Quarters(0x06, 0x03, 1, 1, 0, 1);
    Quarters(0x1B, 0x0D, 0, 1, 1, 0);
    None(0x5B);
    Off(0x5B, 0, 0x5B);
    On(0x5B, 1, 1, 1, 0, 1, 1, 0);
    Off(0x5B, 2, 0x43);
    On(0x5B, 3, 0, 0, 0, 1, 1, 0);
    Off(0x5B, 4, 0x23);
    Off(0x5B, 5, 0x46);
    On(0x5B, 6, 0, 0, 1, 1, 0, 0);
    Off(0x5B, 7, 0x37);
  }

  lemma Digit7()
    ensures XorNat(0x6E, 0x37) == 0x59 && Shifts(0x59, 8) == 0x30
  {
    hide *;
    XorSelf(0);
    Quarters(0x00, 0x00, 0, 1, 0, 0);
    Quarters(0x01, 0x00, 1, 0, 1, 1);
    Quarters(0x06, 0x03, 1, 1, 0, 1);
    Quarters(0x1B, 0x0D, 1, 0, 1, 1);
    None(0x59);
    Off(0x59, 0, 0x59);
    On(0x59, 1, 1, 1, 0, 0, 1, 0);
    Off(0x59, 2, 0x4B);
    On(0x59, 3, 0, 1, 0, 1, 1, 0);
    Off(0x59, 4, 0x03);
    Off(0x59, 5, 0x06);
    Off(0x59, 6, 0x0C);
    Off(0x59, 7, 0x18);
  }

  lemma Digit8()
    ensures XorNat(0x30, 0x38) == 0x08 && Shifts(0x08, 8) == 0x57
  {
    hide *;
    XorSelf(0);
    Quarters(0x00, 0x00, 0, 0, 0, 0);
    Quarters(0x00, 0x00, 1, 1, 1, 1);
    Quarters(0x03, 0x03, 0, 0, 1, 0);
    Quarters(0x0C, 0x0E, 0, 0, 0, 0);
    None(0x08);
    Off(0x08, 0, 0x08);
    Off(0x08, 1, 0x10);
    Off(0x08, 2, 0x20);
    Off(0x08, 3, 0x40);
    On(0x08, 4, 0, 0, 0, 0, 0, 0);
    Off(0x08, 5, 0x2F);
    Off(0x08, 6, 0x5E);
    On(0x08, 7, 1, 1, 1, 1, 0, 0);
  }

  lemma Digit9()
    ensures XorNat(0x57, 0x39) == 0x6E && Shifts(0x6E, 8) == 0x20
  {
    hide *;
    XorSelf(0);
    Quarters(0x00, 0x00, 0, 1, 0, 0);
    Quarters(0x01, 0x00, 0, 1, 1, 1);
    Quarters(0x05, 0x03, 0, 1, 1, 0);
    Quarters(0x15, 0x0E, 1, 1, 0, 1);
    None(0x6E);
    Off(0x6E, 0, 0x6E);
    On(0x6E, 1, 2, 1, 1, 1, 0, 0);
    On(0x6E, 2, 0, 1, 0, 1, 1, 1);
    Off(0x6E, 3, 0x01);
    Off(0x6E, 4, 0x02);
    Off(0x6E, 5, 0x04);
    Off(0x6E, 6, 0x08);
    Off(0x6E, 7, 0x10);
  }

  lemma Upto3()
    ensures Feed(0xFF, [0x31, 0x32, 0x33]) == 0x56
  {
    assert Feed(0xFF, []) == 0xFF;
    hide Feed, Shifts, XorNat;
    Digit1();
    Took(0xFF, 0xCE, 0x31, [], 0xB0);
    assert [] + [0x31] == [0x31];
    Digit2();
    Took(0xB0, 0x82, 0x32, [0x31], 0xBD);
    assert [0x31] + [0x32] == [0x31, 0x32];
    Digit3();
    Took(0xBD, 0x8E, 0x33, [0x31, 0x32], 0x56);
    assert [0x31, 0x32] + [0x33] == [0x31, 0x32, 0x33];
  }

  lemma Upto6()
    ensures Feed(0xFF, [0x31, 0x32, 0x33, 0x34, 0x35, 0x36]) == 0x6E
  {
    hide *;
    Upto3();
    Digit4();
    Took(0x56, 0x62, 0x34, [0x31, 0x32, 0x33], 0xCB);
    assert [0x31, 0x32, 0x33] + [0x34] == [0x31, 0x32, 0x33, 0x34];
    Digit5();
    Took(0xCB, 0xFE, 0x35, [0x31, 0x32, 0x33, 0x34], 0x6D);
    assert [0x31, 0x32, 0x33, 0x34] + [0x35] == [0x31, 0x32, 0x33, 0x34, 0x35];
    Digit6();
    Took(0x6D, 0x5B, 0x36, [0x31, 0x32, 0x33, 0x34, 0x35], 0x6E);
    assert [0x31, 0x32, 0x33, 0x34, 0x35] + [0x36] == [0x31, 0x32, 0x33, 0x34, 0x35, 0x36];
  }

  lemma Upto9()
    ensures Feed(0xFF, [0x31, 0x32, 0x33, 0x34, 0x35, 0x36, 0x37, 0x38, 0x39]) == 0x20
  {
    hide *;
    Upto6();
    Digit7();
    Took(0x6E, 0x59, 0x37, [0x31, 0x32, 0x33, 0x34, 0x35, 0x36], 0x30);
    assert [0x31, 0x32, 0x33, 0x34, 0x35, 0x36] + [0x37] == [0x31, 0x32, 0x33, 0x34, 0x35, 0x36, 0x37];
    Digit8();
    Took(0x30, 0x08, 0x38, [0x31, 0x32, 0x33, 0x34, 0x35, 0x36, 0x37], 0x57);
    assert [0x31, 0x32, 0x33, 0x34, 0x35, 0x36, 0x37] + [0x38] == [0x31, 0x32, 0x33, 0x34, 0x35, 0x36, 0x37, 0x38];
    Digit9();
    Took(0x57, 0x6E, 0x39, [0x31, 0x32, 0x33, 0x34, 0x35, 0x36, 0x37, 0x38], 0x20);
    assert [0x31, 0x32, 0x33, 0x34, 0x35, 0x36, 0x37, 0x38] + [0x39] ==
           [0x31, 0x32, 0x33, 0x34, 0x35, 0x36, 0x37, 0x38, 0x39];
  }

  /** The published check value: the checksum of the digits 1 to 9. */
  lemma CheckValue()
    ensures Crc([0x31, 0x32, 0x33, 0x34, 0x35, 0x36, 0x37, 0x38, 0x39]) == 0xDF
  {
    Upto9();
    hide Feed, XorNat;
    XorSelf(0);
    Quarters(0, 0, 0, 0, 1, 1);
    Quarters(0, 3, 1, 0, 1, 1);
    Quarters(2, 0x0F, 0, 0, 1, 1);
    Quarters(8, 0x3F, 0, 0, 1, 1);
  }
}
