/** The bytes of section 3 of RFC 8949, spelled out: what a header of each width and an item of each
    kind look like, and which first bytes are refused. */
module CborReference {
  import opened Bytes
  import opened Cbor

  function Two(a: nat, b: nat): nat { 0x100 * a + b }

  function Four(a: nat, b: nat, c: nat, d: nat): nat { 0x100_0000 * a + 0x1_0000 * b + 0x100 * c + d }

  lemma BigsStep(v: nat, n: nat)
    requires n > 0
    ensures Bigs(v, n) == Bigs(v / 256, n - 1) + [v % 256]
    ensures v == 256 * (v / 256) + v % 256
  {
  }

  lemma Bigs1(v: nat)
    requires v < 0x100
    ensures Bigs(v, 1) == [v]
  {
    BigsStep(v, 1);
    assert Bigs(v / 256, 0) == [];
  }

  lemma Bigs2(v: nat)
    requires v < 0x1_0000
    ensures var b := Bigs(v, 2); v == Two(b[0], b[1])
  {
    BigsStep(v, 2);
    Bigs1(v / 256);
    hide Bigs;
  }

  lemma Bigs4(v: nat)
    requires v < 0x1_0000_0000
    ensures var b := Bigs(v, 4); v == Four(b[0], b[1], b[2], b[3])
  {
    BigsStep(v, 4);
    BigsStep(v / 256, 3);
    Bigs2(v / 256 / 256);
    hide Bigs;
  }

  lemma Bigs8(v: nat)
    requires v < 0x1_0000_0000_0000_0000
    ensures var b := Bigs(v, 8);
      v == 0x1_0000_0000 * Four(b[0], b[1], b[2], b[3]) + Four(b[4], b[5], b[6], b[7])
  {
    BigsStep(v, 8);
    BigsStep(v / 256, 7);
    BigsStep(v / 256 / 256, 6);
    BigsStep(v / 256 / 256 / 256, 5);
    Bigs4(v / 256 / 256 / 256 / 256);
    hide Bigs;
  }

  /** A header: the major type in the upper three bits, then the argument itself, or the number 24 to 27
      and the argument in 1, 2, 4 or 8 bytes, the most significant first. */
  lemma HeadBytes(major: nat, arg: nat, width: nat)
    requires major < 8
    requires || (width == 0 && arg < 24) || (width == 1 && arg < 0x100) || (width == 2 && arg < 0x1_0000)
             || (width == 4 && arg < 0x1_0000_0000) || (width == 8 && arg < 0x1_0000_0000_0000_0000)
    ensures arg < Limit(width)
    ensures var h := EncodeHead(major, arg, width);
      && (width == 0 ==> h == [32 * major + arg])
      && (width == 1 ==> h == [32 * major + 24, arg])
      && (width == 2 ==> |h| == 3 && h[0] == 32 * major + 25 && arg == Two(h[1], h[2]))
      && (width == 4 ==> |h| == 5 && h[0] == 32 * major + 26 && arg == Four(h[1], h[2], h[3], h[4]))
      && (width == 8 ==>
            && |h| == 9 && h[0] == 32 * major + 27
            && arg == 0x1_0000_0000 * Four(h[1], h[2], h[3], h[4]) + Four(h[5], h[6], h[7], h[8]))
  {
    hide Bigs;
    match width
    case 1 => Bigs1(arg);
    case 2 => Bigs2(arg);
    case 4 => Bigs4(arg);
    case 8 => Bigs8(arg);
    case _ =>
  }

  /** The five kinds of items that the boot files use. */
  lemma ItemBytes(t: Item)
    requires Valid(t)
    ensures t.UInt? ==> Encode(t) == EncodeHead(0, t.value, t.width)
    ensures t.Bytes? ==> Encode(t) == EncodeHead(2, |t.bytes|, t.width) + t.bytes
    ensures t.Text? ==> Encode(t) == EncodeHead(3, |t.bytes|, t.width) + t.bytes
    ensures t.Array? ==> Encode(t) == EncodeHead(4, |t.items|, t.width) + EncodeAll(t.items)
    ensures t.Map? ==> Encode(t) == EncodeHead(5, |t.pairs|, t.width) + EncodePairs(t.pairs)
  {
  }

  /** Lengths that are not given, tags, negative numbers and simple values are refused; so is a header
      cut short. */
  lemma Refused(s: seq<byte>)
    ensures s == [] || s[0] % 32 >= 28 ==> Header(s) == None
    ensures s != [] && s[0] / 32 in {1, 6, 7} ==> Skip(s) == None
    ensures s != [] && ((s[0] % 32 == 24 && |s| < 2) || (s[0] % 32 == 25 && |s| < 3)) ==> Header(s) == None
    ensures s != [] && ((s[0] % 32 == 26 && |s| < 5) || (s[0] % 32 == 27 && |s| < 9)) ==> Header(s) == None
  {
    hide BigEndian;
  }
}
