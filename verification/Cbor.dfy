/** The CBOR subset of the boot files: unsigned integers, byte and text strings, arrays and maps
    (section 3.1 of RFC 8949), read from the bytes that are still unread. */
module Cbor {
  import opened Bytes

  const UINT := 0
  const BYTES := 2
  const TEXT := 3
  const ARRAY := 4
  const MAP := 5

  datatype Option<T> = None | Some(value: T)

  /** An item header: major type, argument, and what follows. */
  datatype Head = Head(major: nat, arg: nat, rest: seq<byte>)

  function BigEndian(s: seq<byte>): (v: nat)
  {
    if s == [] then 0 else 256 * BigEndian(s[..|s| - 1]) + s[|s| - 1]
  }

  /** How many bytes after the first hold the argument. */
  function Extra(n: nat): nat {
    match n
    case 24 => 1
    case 25 => 2
    case 26 => 4
    case 27 => 8
    case _ => 0
  }

  function Header(s: seq<byte>): (r: Option<Head>)
    ensures r.Some? ==> |r.value.rest| < |s|
  {
    if s == [] || s[0] % 32 >= 28 then None
    else
      var n := s[0] % 32;
      var nb := Extra(n);
      if |s| < 1 + nb then None
      else Some(Head(s[0] / 32, if n < 24 then n else BigEndian(s[1..1 + nb]), s[1 + nb..]))
  }

  function ReadUInt(s: seq<byte>): (r: Option<(nat, seq<byte>)>)
    ensures r.Some? ==> |r.value.1| < |s|
  {
    var h := Header(s);
    if h.None? || h.value.major != UINT then None else Some((h.value.arg, h.value.rest))
  }

  /** A byte or text string. */
  function ReadStr(s: seq<byte>, want: nat): (r: Option<(seq<byte>, seq<byte>)>)
    ensures r.Some? ==> |r.value.1| < |s|
  {
    var h := Header(s);
    if h.None? || h.value.major != want || h.value.arg > |h.value.rest| then None
    else Some((h.value.rest[..h.value.arg], h.value.rest[h.value.arg..]))
  }

  function Open(s: seq<byte>, want: nat): (r: Option<(nat, seq<byte>)>)
    ensures r.Some? ==> |r.value.1| < |s|
  {
    var h := Header(s);
    if h.None? || h.value.major != want then None else Some((h.value.arg, h.value.rest))
  }

  /** What is left after one item; the pair count of a map is doubled in 64 bits. */
  function Skip(s: seq<byte>): (r: Option<seq<byte>>)
    ensures r.Some? ==> |r.value| < |s|
    decreases |s|, 0, 0
  {
    var h := Header(s);
    if h.None? then None
    else
      var Head(major, a, rest) := h.value;
      if major == UINT then Some(rest)
      else if major == BYTES || major == TEXT then
        if a > |rest| then None else Some(rest[a..])
      else if major == ARRAY then SkipMany(rest, a)
      else if major == MAP then SkipMany(rest, 2 * a % 0x1_0000_0000_0000_0000)
      else None
  }

  function SkipMany(s: seq<byte>, n: nat): (r: Option<seq<byte>>)
    ensures r.Some? ==> |r.value| <= |s|
    decreases |s|, 1, n
  {
    if n == 0 then Some(s)
    else
      var r := Skip(s);
      if r.None? then None else SkipMany(r.value, n - 1)
  }

  // ---- Items --------------------------------------------------------------------------

  /** An item as a tree; every head has a width, 0 for an argument inside the first byte, else 1, 2, 4
      or 8 bytes. */
  datatype Item =
    | UInt(value: nat, width: nat)
    | Bytes(bytes: seq<byte>, width: nat)
    | Text(bytes: seq<byte>, width: nat)
    | Array(items: seq<Item>, width: nat)
    | Map(pairs: seq<Pair>, width: nat)

  datatype Pair = Pair(key: Item, value: Item)

  function Limit(width: nat): nat {
    match width
    case 0 => 24
    case 1 => 0x100
    case 2 => 0x1_0000
    case 4 => 0x1_0000_0000
    case 8 => 0x1_0000_0000_0000_0000
    case _ => 0
  }

  function Bigs(v: nat, n: nat): (r: seq<byte>)
    ensures |r| == n
    decreases n
  {
    if n == 0 then [] else Bigs(v / 256, n - 1) + [v % 256]
  }

  function Info(width: nat): nat {
    match width
    case 1 => 24
    case 2 => 25
    case 4 => 26
    case _ => 27
  }

  function EncodeHead(major: nat, arg: nat, width: nat): (r: seq<byte>)
    requires major < 8 && arg < Limit(width)
    ensures |r| >= 1
  {
    if width == 0 then [32 * major + arg] else [32 * major + Info(width)] + Bigs(arg, width)
  }

  predicate Valid(t: Item)
    decreases t
  {
    match t
    case UInt(v, w) => v < Limit(w)
    case Bytes(b, w) => |b| < Limit(w)
    case Text(b, w) => |b| < Limit(w)
    case Array(ts, w) => |ts| < Limit(w) && forall i :: 0 <= i < |ts| ==> Valid(ts[i])
    case Map(ps, w) => |ps| < Limit(w) && forall i :: 0 <= i < |ps| ==> Valid(ps[i].key) && Valid(ps[i].value)
  }

  predicate ValidPair(p: Pair) { Valid(p.key) && Valid(p.value) }

  predicate ValidPairs(ps: seq<Pair>) { forall i :: 0 <= i < |ps| ==> ValidPair(ps[i]) }

  function Encode(t: Item): (r: seq<byte>)
    requires Valid(t)
    ensures |r| >= 1
    decreases t, 1
  {
    match t
    case UInt(v, w) => EncodeHead(UINT, v, w)
    case Bytes(b, w) => EncodeHead(BYTES, |b|, w) + b
    case Text(b, w) => EncodeHead(TEXT, |b|, w) + b
    case Array(ts, w) => EncodeHead(ARRAY, |ts|, w) + EncodeAll(ts)
    case Map(ps, w) => EncodeHead(MAP, |ps|, w) + EncodePairs(ps)
  }

  function EncodeAll(ts: seq<Item>): (r: seq<byte>)
    requires forall i :: 0 <= i < |ts| ==> Valid(ts[i])
    ensures |r| >= |ts|
    decreases ts, 0
  {
    if ts == [] then [] else Encode(ts[0]) + EncodeAll(ts[1..])
  }

  function EncodePair(p: Pair): (r: seq<byte>)
    requires ValidPair(p)
    ensures |r| >= 2
    decreases p, 0
  {
    Encode(p.key) + Encode(p.value)
  }

  function EncodePairs(ps: seq<Pair>): (r: seq<byte>)
    requires ValidPairs(ps)
    ensures |r| >= 2 * |ps|
    decreases ps, 0
  {
    if ps == [] then [] else EncodePair(ps[0]) + EncodePairs(ps[1..])
  }
}
