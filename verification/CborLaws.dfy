/** The reader against the encoding: every header and string is read back, skipping an item stops
    exactly at its end, and a cut item is refused. */
module CborLaws {
  import opened Bytes
  import opened Cbor

  function Pow256(n: nat): nat { if n == 0 then 1 else 256 * Pow256(n - 1) }

  lemma {:induction false} BigRead(v: nat, n: nat)
    requires v < Pow256(n)
    ensures BigEndian(Bigs(v, n)) == v
    decreases n
  {
    if n > 0 {
      BigRead(v / 256, n - 1);
      var b := Bigs(v, n);
      assert b[..|b| - 1] == Bigs(v / 256, n - 1);
    }
  }

  lemma LimitPow(w: nat)
    requires w in {1, 2, 4, 8}
    ensures Limit(w) == Pow256(w)
  {
    assert Pow256(1) == 0x100;
    assert Pow256(2) == 0x1_0000;
    assert Pow256(3) == 0x100_0000;
    assert Pow256(4) == 0x1_0000_0000;
    assert Pow256(5) == 0x100_0000_0000;
    assert Pow256(6) == 0x1_0000_0000_0000;
    assert Pow256(7) == 0x100_0000_0000_0000;
    assert Pow256(8) == 0x1_0000_0000_0000_0000;
  }

  lemma LongHeader(s: seq<byte>, b: byte, args: seq<byte>, rest: seq<byte>)
    requires s == [b] + args + rest && 24 <= b % 32 < 28 && |args| == Extra(b % 32)
    ensures Header(s) == Some(Head(b / 32, BigEndian(args), rest))
  {
    assert s[1..1 + |args|] == args && s[1 + |args|..] == rest;
    hide BigEndian;
  }

  lemma ShortHeader(b: byte, rest: seq<byte>)
    requires b % 32 < 24
    ensures Header([b] + rest) == Some(Head(b / 32, b % 32, rest))
  {
    assert ([b] + rest)[1..] == rest;
  }

  lemma InfoExtra(w: nat, major: nat)
    requires w in {1, 2, 4, 8} && major < 8
    ensures var b := 32 * major + Info(w); b < 256 && 24 <= b % 32 < 28 && Extra(b % 32) == w && b / 32 == major
  {
  }

  lemma WidthOk(arg: nat, w: nat)
    requires arg < Limit(w)
    ensures (w == 0 && arg < 24) || w in {1, 2, 4, 8}
  {
  }

  /** A header is read back. */
  lemma HeadRead(major: nat, arg: nat, w: nat, rest: seq<byte>)
    requires major < 8 && arg < Limit(w)
    ensures Header(EncodeHead(major, arg, w) + rest) == Some(Head(major, arg, rest))
  {
    WidthOk(arg, w);
    if w == 0 {
      ShortHeader(32 * major + arg, rest);
    } else {
      LimitPow(w);
      BigRead(arg, w);
      InfoExtra(w, major);
      var b, args := 32 * major + Info(w), Bigs(arg, w);
      hide Header, BigEndian, Bigs, Info, Extra, Pow256;
      LongHeader(EncodeHead(major, arg, w) + rest, b, args, rest);
    }
  }

  lemma Assoc(a: seq<byte>, b: seq<byte>, c: seq<byte>)
    ensures (a + b) + c == a + (b + c)
  {
  }

  // ---- Skipping -----------------------------------------------------------------------

  const WORD := 0x1_0000_0000_0000_0000

  lemma EncodeIs(t: Item)
    requires Valid(t)
    ensures Encode(t) ==
      match t
      case UInt(v, w) => EncodeHead(UINT, v, w)
      case Bytes(b, w) => EncodeHead(BYTES, |b|, w) + b
      case Text(b, w) => EncodeHead(TEXT, |b|, w) + b
      case Array(ts, w) => EncodeHead(ARRAY, |ts|, w) + EncodeAll(ts)
      case Map(ps, w) => EncodeHead(MAP, |ps|, w) + EncodePairs(ps)
  {
    hide EncodeHead, EncodeAll, EncodePairs;
  }

  lemma SkipStr(s: seq<byte>, major: nat, b: seq<byte>, rest: seq<byte>)
    requires (major == BYTES || major == TEXT) && Header(s) == Some(Head(major, |b|, b + rest))
    ensures Skip(s) == Some(rest)
  {
    hide Header;
    assert (b + rest)[|b|..] == rest;
  }

  lemma SkipArray(s: seq<byte>, n: nat, rest: seq<byte>)
    requires Header(s) == Some(Head(ARRAY, n, rest))
    ensures Skip(s) == SkipMany(rest, n)
  {
    hide Header;
  }

  lemma SkipMap(s: seq<byte>, n: nat, rest: seq<byte>)
    requires Header(s) == Some(Head(MAP, n, rest)) && 2 * n < WORD
    ensures Skip(s) == SkipMany(rest, 2 * n)
  {
    hide Header;
  }

  lemma SkipNumber(s: seq<byte>, n: nat, rest: seq<byte>)
    requires Header(s) == Some(Head(UINT, n, rest))
    ensures Skip(s) == Some(rest)
  {
    hide Header;
  }

  lemma SkipStep(s: seq<byte>, n: nat, rest: seq<byte>)
    requires n > 0 && Skip(s) == Some(rest)
    ensures SkipMany(s, n) == SkipMany(rest, n - 1)
  {
    hide Skip;
  }

  /** Skipping the encoding of an item, whatever follows it, stops exactly at its end. The bound is the
      one a 32-bit buffer length keeps. */
  lemma SkipExact(t: Item, rest: seq<byte>)
    requires Valid(t) && |Encode(t)| < 0x1_0000_0000
    ensures Skip(Encode(t) + rest) == Some(rest)
  {
    SkipItem(t, rest);
  }

  lemma {:induction false} SkipItem(t: Item, rest: seq<byte>)
    requires Valid(t) && |Encode(t)| < WORD
    ensures Skip(Encode(t) + rest) == Some(rest)
    decreases t, 1
  {
    EncodeIs(t);
    var s := Encode(t) + rest;
    hide Encode, EncodeHead, Header, Skip, SkipMany, Limit;
    match t
    case UInt(v, w) =>
      HeadRead(UINT, v, w, rest);
      SkipNumber(s, v, rest);
    case Bytes(b, w) =>
      HeadRead(BYTES, |b|, w, b + rest);
      Assoc(EncodeHead(BYTES, |b|, w), b, rest);
      SkipStr(s, BYTES, b, rest);
    case Text(b, w) =>
      HeadRead(TEXT, |b|, w, b + rest);
      Assoc(EncodeHead(TEXT, |b|, w), b, rest);
      SkipStr(s, TEXT, b, rest);
    case Array(ts, w) =>
      var body := EncodeAll(ts);
      HeadRead(ARRAY, |ts|, w, body + rest);
      Assoc(EncodeHead(ARRAY, |ts|, w), body, rest);
      SkipArray(s, |ts|, body + rest);
      SkipAll(ts, rest);
    case Map(ps, w) =>
      var body := EncodePairs(ps);
      HeadRead(MAP, |ps|, w, body + rest);
      Assoc(EncodeHead(MAP, |ps|, w), body, rest);
      SkipMap(s, |ps|, body + rest);
      SkipPairs(ps, rest);
  }

  lemma EncodeAllStep(ts: seq<Item>)
    requires ts != [] && forall i :: 0 <= i < |ts| ==> Valid(ts[i])
    ensures EncodeAll(ts) == Encode(ts[0]) + EncodeAll(ts[1..])
  {
    hide Encode;
  }

  lemma EncodePairsStep(ps: seq<Pair>)
    requires ps != [] && ValidPairs(ps)
    ensures ValidPair(ps[0]) && ValidPairs(ps[1..])
    ensures EncodePairs(ps) == Encode(ps[0].key) + Encode(ps[0].value) + EncodePairs(ps[1..])
  {
    hide Encode, ValidPair;
    assert ValidPair(ps[0]);
    PairIs(ps[0]);
    hide EncodePair;
  }

  lemma PairIs(p: Pair)
    requires ValidPair(p)
    ensures Valid(p.key) && Valid(p.value) && EncodePair(p) == Encode(p.key) + Encode(p.value)
  {
    hide Encode;
  }

  lemma {:induction false} SkipAll(ts: seq<Item>, rest: seq<byte>)
    requires (forall i :: 0 <= i < |ts| ==> Valid(ts[i])) && |EncodeAll(ts)| < WORD
    ensures SkipMany(EncodeAll(ts) + rest, |ts|) == Some(rest)
    decreases ts, 0
  {
    if ts == [] {
      assert EncodeAll(ts) + rest == rest;
      SkipNone(rest);
    } else {
      EncodeAllStep(ts);
      assert Valid(ts[0]);
      var a, b := Encode(ts[0]), EncodeAll(ts[1..]);
      hide Encode, EncodeAll, Skip, SkipMany, Valid;
      SkipItem(ts[0], b + rest);
      Assoc(a, b, rest);
      SkipStep(EncodeAll(ts) + rest, |ts|, b + rest);
      SkipAll(ts[1..], rest);
    }
  }

  lemma SkipNone(rest: seq<byte>)
    ensures SkipMany(rest, 0) == Some(rest)
  {
  }

  lemma {:induction false} SkipPairs(ps: seq<Pair>, rest: seq<byte>)
    requires ValidPairs(ps) && |EncodePairs(ps)| < WORD
    ensures SkipMany(EncodePairs(ps) + rest, 2 * |ps|) == Some(rest)
    decreases ps, 0
  {
    if ps == [] {
      assert EncodePairs(ps) + rest == rest;
      SkipNone(rest);
    } else {
      EncodePairsStep(ps);
      PairIs(ps[0]);
      SkipPair(ps[0], EncodePairs(ps[1..]) + rest, 2 * |ps|);
      var e, c := EncodePair(ps[0]), EncodePairs(ps[1..]);
      hide Encode, EncodePair, EncodePairs, Skip, SkipMany, ValidPair, ValidPairs;
      Assoc(e, c, rest);
      SkipPairs(ps[1..], rest);
    }
  }

  lemma {:induction false} SkipPair(p: Pair, rest: seq<byte>, n: nat)
    requires ValidPair(p) && |EncodePair(p)| < WORD && n >= 2
    ensures SkipMany(EncodePair(p) + rest, n) == SkipMany(rest, n - 2)
    decreases p, 0
  {
    PairIs(p);
    var a, b := Encode(p.key), Encode(p.value);
    hide Encode, EncodePair, Skip, SkipMany, Valid;
    SkipItem(p.key, b + rest);
    SkipItem(p.value, rest);
    Assoc(a, b, rest);
    SkipStep(a + b + rest, n, b + rest);
    SkipStep(b + rest, n - 1, rest);
  }

  // ---- Cut items ----------------------------------------------------------------------

  lemma HeaderLonger(s: seq<byte>, x: seq<byte>)
    requires Header(s).Some?
    ensures Header(s + x) == Some(Header(s).value.(rest := Header(s).value.rest + x))
  {
    var nb := Extra(s[0] % 32);
    assert (s + x)[1..1 + nb] == s[1..1 + nb] && (s + x)[1 + nb..] == s[1 + nb..] + x;
    hide BigEndian;
  }

  /** More bytes at the end never change what skipping consumes. */
  lemma {:induction false} SkipLonger(s: seq<byte>, x: seq<byte>)
    requires Skip(s).Some?
    ensures Skip(s + x) == Some(Skip(s).value + x)
    decreases |s|, 0, 0
  {
    HeaderLonger(s, x);
    var Head(major, a, rest) := Header(s).value;
    hide Header;
    if major == ARRAY {
      SkipManyLonger(rest, x, a);
    } else if major == MAP {
      SkipManyLonger(rest, x, 2 * a % WORD);
    } else if major == BYTES || major == TEXT {
      assert (rest + x)[a..] == rest[a..] + x;
    }
  }

  lemma {:induction false} SkipManyLonger(s: seq<byte>, x: seq<byte>, n: nat)
    requires SkipMany(s, n).Some?
    ensures SkipMany(s + x, n) == Some(SkipMany(s, n).value + x)
    decreases |s|, 1, n
  {
    hide Skip;
    if n > 0 {
      SkipLonger(s, x);
      SkipManyLonger(Skip(s).value, x, n - 1);
    }
  }

  /** An item cut short anywhere is refused. */
  lemma CutRefused(t: Item, k: nat)
    requires Valid(t) && k < |Encode(t)| < 0x1_0000_0000
    ensures Skip(Encode(t)[..k]).None?
  {
    hide *;
    var e := Encode(t);
    SkipExact(t, []);
    assert e + [] == e && e[..k] + e[k..] == e;
    if Skip(e[..k]).Some? {
      SkipLonger(e[..k], e[k..]);
    }
  }
}
