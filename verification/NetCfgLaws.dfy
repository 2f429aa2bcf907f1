/** The config parser does on bytes what the items mean, and unknown keys mean nothing. */
module NetCfgLaws {
  import opened Bytes
  import opened Cbor
  import opened CborLaws
  import opened NetCfg

  const BUFFER := 0x1_0000_0000

  // ---- Reading one item where another kind may stand ----------------------------------

  function MajorOf(t: Item): nat {
    match t
    case UInt(_, _) => UINT
    case Bytes(_, _) => BYTES
    case Text(_, _) => TEXT
    case Array(_, _) => ARRAY
    case Map(_, _) => MAP
  }

  function ArgOf(t: Item): nat {
    match t
    case UInt(v, _) => v
    case Bytes(b, _) => |b|
    case Text(b, _) => |b|
    case Array(ts, _) => |ts|
    case Map(ps, _) => |ps|
  }

  function Opened(n: nat, rest: seq<byte>): Option<(nat, seq<byte>)> { Some((n, rest)) }

  function Content(t: Item): seq<byte>
    requires Valid(t)
  {
    match t
    case UInt(_, _) => []
    case Bytes(b, _) => b
    case Text(b, _) => b
    case Array(ts, _) => EncodeAll(ts)
    case Map(ps, _) => EncodePairs(ps)
  }

  lemma ArgFits(t: Item)
    requires Valid(t)
    ensures ArgOf(t) < Limit(t.width) && MajorOf(t) < 8
    ensures Encode(t) == EncodeHead(MajorOf(t), ArgOf(t), t.width) + Content(t)
  {
    EncodeIs(t);
    hide EncodeHead, EncodeAll, EncodePairs, Encode;
    if t.UInt? {
      assert EncodeHead(MajorOf(t), ArgOf(t), t.width) + [] == EncodeHead(MajorOf(t), ArgOf(t), t.width);
    }
  }

  /** The header of an item tells its kind. */
  lemma ItemHeader(t: Item, x: seq<byte>)
    requires Valid(t)
    ensures Header(Encode(t) + x) == Some(Head(MajorOf(t), ArgOf(t), Content(t) + x))
  {
    hide *;
    ArgFits(t);
    Assoc(EncodeHead(MajorOf(t), ArgOf(t), t.width), Content(t), x);
    HeadRead(MajorOf(t), ArgOf(t), t.width, Content(t) + x);
  }

  lemma StrOrNot(t: Item, want: nat, x: seq<byte>)
    requires Valid(t) && (want == BYTES || want == TEXT)
    ensures ReadStr(Encode(t) + x, want) == if MajorOf(t) == want then Some((Content(t), x)) else None
  {
    ItemHeader(t, x);
    if MajorOf(t) == want {
      assert |Content(t)| == ArgOf(t);
      assert (Content(t) + x)[..ArgOf(t)] == Content(t) && (Content(t) + x)[ArgOf(t)..] == x;
    }
    hide Header, Encode, Content, MajorOf, ArgOf;
  }

  lemma TextOrNot(t: Item, x: seq<byte>)
    requires Valid(t)
    ensures ReadStr(Encode(t) + x, TEXT) == if t.Text? then Some((t.bytes, x)) else None
  {
    StrOrNot(t, TEXT, x);
    hide ReadStr, Encode;
  }

  lemma BytesOrNot(t: Item, x: seq<byte>)
    requires Valid(t)
    ensures ReadStr(Encode(t) + x, BYTES) == if t.Bytes? then Some((t.bytes, x)) else None
  {
    StrOrNot(t, BYTES, x);
    hide ReadStr, Encode;
  }

  lemma UIntOrNot(t: Item, x: seq<byte>)
    requires Valid(t)
    ensures ReadUInt(Encode(t) + x) == if t.UInt? then Some((t.value, x)) else None
  {
    ItemHeader(t, x);
    assert t.UInt? ==> Content(t) + x == x;
    hide Header, Encode, EncodeAll, EncodePairs;
  }

  lemma OpenOrNot(t: Item, want: nat, x: seq<byte>)
    requires Valid(t)
    ensures Open(Encode(t) + x, want) == if MajorOf(t) == want then Opened(ArgOf(t), Content(t) + x) else None
  {
    ItemHeader(t, x);
    hide Header, Encode, Content, MajorOf, ArgOf;
  }

  lemma ArrayOrNot(t: Item, x: seq<byte>)
    requires Valid(t)
    ensures Open(Encode(t) + x, ARRAY) == if t.Array? then Opened(|t.items|, EncodeAll(t.items) + x) else None
  {
    OpenOrNot(t, ARRAY, x);
    hide Open, Encode, EncodeAll, EncodePairs;
  }

  lemma MapOrNot(t: Item, x: seq<byte>)
    requires Valid(t)
    ensures t.Map? ==> ValidPairs(t.pairs)
    ensures Open(Encode(t) + x, MAP) == if t.Map? then Opened(|t.pairs|, EncodePairs(t.pairs) + x) else None
  {
    OpenOrNot(t, MAP, x);
    hide Open, Encode, EncodeAll, EncodePairs;
  }

  lemma SkipsIt(t: Item, x: seq<byte>)
    requires Valid(t) && |Encode(t)| < BUFFER
    ensures Skip(Encode(t) + x) == Some(x)
  {
    SkipExact(t, x);
  }

  // ---- Credentials --------------------------------------------------------------------

  /** The step over bytes that a meaning amounts to. */
  function Stepped<T>(m: Meaning<T>, x: seq<byte>): Step<T> { Step(m.value, if m.ok then Some(x) else None) }

  lemma PairSplit(p: Pair, x: seq<byte>)
    requires ValidPair(p)
    ensures Valid(p.key) && Valid(p.value)
    ensures EncodePair(p) + x == Encode(p.key) + (Encode(p.value) + x)
    ensures |Encode(p.value)| <= |EncodePair(p)|
  {
    PairIs(p);
    hide Encode, Valid;
    Assoc(Encode(p.key), Encode(p.value), x);
  }

  lemma ApPairLaw(p: Pair, ap: Ap, x: seq<byte>)
    requires ValidPair(p) && |EncodePair(p)| < BUFFER
    ensures ApPair(EncodePair(p) + x, ap) == Stepped(ApPairMeans(p, ap), x)
  {
    PairSplit(p, x);
    TextOrNot(p.key, Encode(p.value) + x);
    TextOrNot(p.value, x);
    SkipsIt(p.value, x);
    hide ReadStr, Skip, Encode, EncodePair, SetSsid, SetPass, Valid, ValidPair;
  }

  lemma ApPairsStep(s: seq<byte>, n: nat, ap: Ap)
    requires n > 0
    ensures ApPairs(s, n, ap) ==
      (var p := ApPair(s, ap); if p.rest.None? then p else ApPairs(p.rest.value, n - 1, p.value))
  {
    hide ApPair;
  }

  lemma ApMeansStep(ps: seq<Pair>, ap: Ap)
    requires ps != []
    ensures ApMeans(ps, ap) == (var m := ApPairMeans(ps[0], ap); if m.ok then ApMeans(ps[1..], m.value) else m)
  {
    hide ApPairMeans;
  }

  lemma PairsSplit(ps: seq<Pair>, x: seq<byte>)
    requires ps != [] && ValidPairs(ps)
    ensures ValidPair(ps[0]) && ValidPairs(ps[1..])
    ensures EncodePairs(ps) + x == EncodePair(ps[0]) + (EncodePairs(ps[1..]) + x)
    ensures |EncodePairs(ps)| == |EncodePair(ps[0])| + |EncodePairs(ps[1..])|
  {
    EncodePairsStep(ps);
    PairIs(ps[0]);
    hide Encode, ValidPair, ValidPairs, EncodePairs, EncodePair;
    Assoc(EncodePair(ps[0]), EncodePairs(ps[1..]), x);
  }

  lemma NoPairs(x: seq<byte>)
    ensures EncodePairs([]) + x == x
  {
  }

  lemma NoApPairs(ap: Ap, x: seq<byte>)
    ensures ApPairs(x, 0, ap) == Step(ap, Some(x)) && ApMeans([], ap) == Meaning(ap, true)
  {
  }

  lemma ApFirst(ps: seq<Pair>, ap: Ap, x: seq<byte>)
    requires ps != [] && ValidPairs(ps) && |EncodePairs(ps)| < BUFFER
    ensures ValidPairs(ps[1..]) && |EncodePairs(ps[1..])| < BUFFER
    ensures ApPairs(EncodePairs(ps) + x, |ps|, ap) ==
      (var m := ApPairMeans(ps[0], ap);
       if m.ok then ApPairs(EncodePairs(ps[1..]) + x, |ps| - 1, m.value) else Step(m.value, None))
  {
    hide *;
    PairsSplit(ps, x);
    ApPairLaw(ps[0], ap, EncodePairs(ps[1..]) + x);
    SteppedIs(ApPairMeans(ps[0], ap), EncodePairs(ps[1..]) + x);
    ApPairsStep(EncodePairs(ps) + x, |ps|, ap);
  }

  lemma SteppedIs<T>(m: Meaning<T>, x: seq<byte>)
    ensures Stepped(m, x) == Step(m.value, if m.ok then Some(x) else None)
  {
  }

  lemma {:induction false} ApPairsLaw(ps: seq<Pair>, ap: Ap, x: seq<byte>)
    requires ValidPairs(ps) && |EncodePairs(ps)| < BUFFER
    ensures ApPairs(EncodePairs(ps) + x, |ps|, ap) == Stepped(ApMeans(ps, ap), x)
    decreases |ps|
  {
    hide *;
    SteppedIs(ApMeans(ps, ap), x);
    if ps == [] {
      NoPairs(x);
      NoApPairs(ap, x);
    } else {
      ApFirst(ps, ap, x);
      ApMeansStep(ps, ap);
      if ApPairMeans(ps[0], ap).ok {
        ApPairsLaw(ps[1..], ApPairMeans(ps[0], ap).value, x);
      }
    }
  }

  lemma MapLength(t: Item)
    requires Valid(t) && t.Map?
    ensures ValidPairs(t.pairs) && |EncodePairs(t.pairs)| <= |Encode(t)|
  {
    EncodeIs(t);
    hide EncodePairs, EncodeHead, Encode;
  }

  lemma ParseApLaw(t: Item, ap: Ap, x: seq<byte>)
    requires Valid(t) && |Encode(t)| < BUFFER
    ensures ParseAp(Encode(t) + x, ap) == if t.Map? then Stepped(ApMeans(t.pairs, ap), x) else Step(ap, None)
  {
    MapOrNot(t, x);
    if t.Map? {
      MapLength(t);
      ApPairsLaw(t.pairs, ap, x);
    }
    hide Open, ApPairs, ApMeans, Encode, EncodePairs, Valid, ValidPairs;
  }

  lemma AllSplit(ts: seq<Item>, j: nat, x: seq<byte>)
    requires j < |ts| && forall i :: 0 <= i < |ts| ==> Valid(ts[i])
    ensures forall i :: 0 <= i < |ts[j..]| ==> Valid(ts[j..][i])
    ensures EncodeAll(ts[j..]) + x == Encode(ts[j]) + (EncodeAll(ts[j + 1..]) + x)
    ensures |EncodeAll(ts[j..])| == |Encode(ts[j])| + |EncodeAll(ts[j + 1..])|
  {
    assert ts[j..][0] == ts[j] && ts[j..][1..] == ts[j + 1..];
    hide Valid;
    EncodeAllStep(ts[j..]);
    hide Encode, EncodeAll;
    Assoc(Encode(ts[j]), EncodeAll(ts[j + 1..]), x);
  }

  lemma ApListStep(s: seq<byte>, j: nat, n: nat, c: Config)
    requires j < n
    ensures ApList(s, j, n, c) ==
      if j < AP_MAX then
        var a := ParseAp(s, c.aps[j]);
        var d := c.(aps := c.aps[j := a.value]);
        if a.rest.None? then Step(d, None) else ApList(a.rest.value, j + 1, n, d)
      else
        var r := Skip(s);
        if r.None? then Step(c, None) else ApList(r.value, j + 1, n, c)
  {
    hide ParseAp, Skip;
  }

  lemma ListMeansStep(ts: seq<Item>, j: nat, c: Config)
    requires j < |ts|
    ensures ListMeans(ts, j, c) ==
      if j >= AP_MAX then Meaning(c, true)
      else if !ts[j].Map? then Meaning(c, false)
      else
        var m := ApMeans(ts[j].pairs, c.aps[j]);
        var d := c.(aps := c.aps[j := m.value]);
        if m.ok then ListMeans(ts, j + 1, d) else Meaning(d, false)
  {
    hide ApMeans;
  }

  lemma ListMeansPast(ts: seq<Item>, j: nat, c: Config)
    requires j <= |ts| && (j >= AP_MAX || j == |ts|)
    ensures ListMeans(ts, j, c) == Meaning(c, true)
  {
  }

  lemma SameSlot(c: Config, j: nat)
    requires j < AP_MAX
    ensures c.(aps := c.aps[j := c.aps[j]]) == c
  {
  }

  lemma ApListKept(t: Item, rest: seq<byte>, j: nat, n: nat, c: Config)
    requires j < n && j < AP_MAX && Valid(t) && |Encode(t)| < BUFFER
    ensures ApList(Encode(t) + rest, j, n, c) ==
      if !t.Map? then Step(c, None)
      else
        var m := ApMeans(t.pairs, c.aps[j]);
        var d := c.(aps := c.aps[j := m.value]);
        if m.ok then ApList(rest, j + 1, n, d) else Step(d, None)
  {
    hide ApList, ParseAp, ApMeans, Skip, Encode, Valid;
    ApListStep(Encode(t) + rest, j, n, c);
    ParseApLaw(t, c.aps[j], rest);
    SameSlot(c, j);
  }

  lemma ApListSkipped(t: Item, rest: seq<byte>, j: nat, n: nat, c: Config)
    requires AP_MAX <= j < n && Valid(t) && |Encode(t)| < BUFFER
    ensures ApList(Encode(t) + rest, j, n, c) == ApList(rest, j + 1, n, c)
  {
    hide ApList, ParseAp, Skip, Encode, Valid;
    ApListStep(Encode(t) + rest, j, n, c);
    SkipsIt(t, rest);
  }

  lemma {:induction false} ApListLaw(ts: seq<Item>, j: nat, c: Config, x: seq<byte>)
    requires (forall i :: 0 <= i < |ts| ==> Valid(ts[i])) && j <= |ts|
    requires (forall i :: 0 <= i < |ts[j..]| ==> Valid(ts[j..][i])) && |EncodeAll(ts[j..])| < BUFFER
    ensures ApList(EncodeAll(ts[j..]) + x, j, |ts|, c) == Stepped(ListMeans(ts, j, c), x)
    decreases |ts| - j
  {
    hide *;
    SteppedIs(ListMeans(ts, j, c), x);
    if j == |ts| {
      NoItems(ts[j..], x);
      ListMeansPast(ts, j, c);
      ApListDone(x, j, c);
    } else {
      AllSplit(ts, j, x);
      var rest := EncodeAll(ts[j + 1..]) + x;
      if j >= AP_MAX {
        ListMeansPast(ts, j, c);
        ListMeansPast(ts, j + 1, c);
        ApListSkipped(ts[j], rest, j, |ts|, c);
        ApListLaw(ts, j + 1, c, x);
      } else {
        ListMeansStep(ts, j, c);
        ApListKept(ts[j], rest, j, |ts|, c);
        if ts[j].Map? {
          var m := ApMeans(ts[j].pairs, c.aps[j]);
          ApListLaw(ts, j + 1, c.(aps := c.aps[j := m.value]), x);
        }
      }
    }
  }

  lemma NoItems(ts: seq<Item>, x: seq<byte>)
    requires ts == []
    ensures EncodeAll(ts) + x == x
  {
  }

  lemma ApListDone(x: seq<byte>, j: nat, c: Config)
    ensures ApList(x, j, j, c) == Step(c, Some(x))
  {
  }

  // ---- The whole map ------------------------------------------------------------------

  lemma ApsLaw(t: Item, c: Config, x: seq<byte>)
    requires Valid(t) && |Encode(t)| < BUFFER && t.Array?
    ensures Open(Encode(t) + x, ARRAY) == Opened(|t.items|, EncodeAll(t.items) + x)
    ensures ApList(EncodeAll(t.items) + x, 0, |t.items|, c) == Stepped(ListMeans(t.items, 0, c), x)
  {
    ArrayOrNot(t, x);
    EncodeIs(t);
    assert t.items[0..] == t.items;
    hide ApList, ListMeans, Encode, EncodeAll, EncodePairs, EncodeHead;
    ApListLaw(t.items, 0, c, x);
  }

  lemma NetValueLaw(key: seq<byte>, t: Item, a: Acc, x: seq<byte>)
    requires Valid(t) && |Encode(t)| < BUFFER
    ensures NetValue(key, Encode(t) + x, a) == Stepped(ValueMeans(key, t, a), x)
  {
    hide ReadStr, ReadUInt, Open, Skip, ApList, ListMeans, Encode, EncodeAll, SetSsid, SetPass, FirstAp, Valid;
    if key == KEY_V || key == KEY_PT {
      UIntOrNot(t, x);
    } else if key == KEY_IP {
      BytesOrNot(t, x);
    } else if key == KEY_SS || key == KEY_PW {
      TextOrNot(t, x);
    } else if key == KEY_APS {
      ArrayOrNot(t, x);
      if t.Array? {
        ApsLaw(t, a.out, x);
      }
    } else {
      SkipsIt(t, x);
    }
  }

  lemma NetPairLaw(p: Pair, a: Acc, x: seq<byte>)
    requires ValidPair(p) && |EncodePair(p)| < BUFFER
    ensures NetPair(EncodePair(p) + x, a) == Stepped(PairMeans(p, a), x)
  {
    hide ReadStr, NetValue, ValueMeans, Encode, EncodePair, Valid, ValidPair;
    PairSplit(p, x);
    TextOrNot(p.key, Encode(p.value) + x);
    if p.key.Text? {
      NetValueLaw(p.key.bytes, p.value, a, x);
    }
  }

  lemma NetPairsStep(s: seq<byte>, n: nat, a: Acc)
    requires n > 0
    ensures NetPairs(s, n, a) ==
      (var p := NetPair(s, a); if p.rest.None? then p else NetPairs(p.rest.value, n - 1, p.value))
  {
    hide NetPair;
  }

  lemma PairsMeanStep(ps: seq<Pair>, a: Acc)
    requires ps != []
    ensures PairsMean(ps, a) == (var m := PairMeans(ps[0], a); if m.ok then PairsMean(ps[1..], m.value) else m)
  {
    hide PairMeans;
  }

  lemma NoNetPairs(a: Acc, x: seq<byte>)
    ensures NetPairs(x, 0, a) == Step(a, Some(x)) && PairsMean([], a) == Meaning(a, true)
  {
  }

  lemma NetFirst(ps: seq<Pair>, a: Acc, x: seq<byte>)
    requires ps != [] && ValidPairs(ps) && |EncodePairs(ps)| < BUFFER
    ensures ValidPairs(ps[1..]) && |EncodePairs(ps[1..])| < BUFFER
    ensures NetPairs(EncodePairs(ps) + x, |ps|, a) ==
      (var m := PairMeans(ps[0], a);
       if m.ok then NetPairs(EncodePairs(ps[1..]) + x, |ps| - 1, m.value) else Step(m.value, None))
  {
    hide *;
    PairsSplit(ps, x);
    NetPairLaw(ps[0], a, EncodePairs(ps[1..]) + x);
    SteppedIs(PairMeans(ps[0], a), EncodePairs(ps[1..]) + x);
    NetPairsStep(EncodePairs(ps) + x, |ps|, a);
  }

  lemma {:induction false} NetPairsLaw(ps: seq<Pair>, a: Acc, x: seq<byte>)
    requires ValidPairs(ps) && |EncodePairs(ps)| < BUFFER
    ensures NetPairs(EncodePairs(ps) + x, |ps|, a) == Stepped(PairsMean(ps, a), x)
    decreases |ps|
  {
    hide *;
    SteppedIs(PairsMean(ps, a), x);
    if ps == [] {
      NoPairs(x);
      NoNetPairs(a, x);
    } else {
      NetFirst(ps, a, x);
      PairsMeanStep(ps, a);
      if PairMeans(ps[0], a).ok {
        NetPairsLaw(ps[1..], PairMeans(ps[0], a).value, x);
      }
    }
  }

  /** On a well-formed file the parser returns, in result and in output, what its items mean; what
      follows the map does not matter. */
  lemma ParserMeans(t: Item, x: seq<byte>)
    requires Valid(t) && |Encode(t)| < BUFFER
    ensures ParseNet(Encode(t) + x) == if t.Map? then NetMeans(t.pairs) else (ErrFormat, Blank())
  {
    MapOrNot(t, x);
    if t.Map? {
      MapLength(t);
      NetPairsLaw(t.pairs, Start(), x);
    }
    hide Open, NetPairs, PairsMean, Encode, EncodePairs, Verdict, Start, Blank, Valid, ValidPairs;
  }

  // ---- Unknown keys -------------------------------------------------------------------

  predicate Unknown(p: Pair) { p.key.Text? && !KnownKey(p.key.bytes) }

  lemma {:induction false} UnknownMeansNothing(ps: seq<Pair>, i: nat, p: Pair, a: Acc)
    requires i <= |ps| && Unknown(p)
    ensures PairsMean(ps[..i] + [p] + ps[i..], a) == PairsMean(ps, a)
    decreases i
  {
    var qs := ps[..i] + [p] + ps[i..];
    if i == 0 {
      assert qs[0] == p && qs[1..] == ps;
      PairsMeanStep(qs, a);
      UnknownStep(p, a);
    } else {
      assert qs[0] == ps[0] && qs[1..] == ps[1..][..i - 1] + [p] + ps[1..][i - 1..];
      PairsMeanStep(qs, a);
      PairsMeanStep(ps, a);
      if PairMeans(ps[0], a).ok {
        UnknownMeansNothing(ps[1..], i - 1, p, PairMeans(ps[0], a).value);
      }
    }
    hide PairMeans, PairsMean;
  }

  lemma UnknownStep(p: Pair, a: Acc)
    requires Unknown(p)
    ensures PairMeans(p, a) == Meaning(a, true)
  {
  }

  /** Adding a pair with an unknown key anywhere in the map changes neither the result nor the output,
      whether the file was good or bad. */
  lemma ForwardCompatible(t: Item, u: Item, i: nat, p: Pair, x: seq<byte>, y: seq<byte>)
    requires Valid(t) && Valid(u) && |Encode(t)| < BUFFER && |Encode(u)| < BUFFER
    requires t.Map? && u.Map? && i <= |t.pairs| && u.pairs == t.pairs[..i] + [p] + t.pairs[i..] && Unknown(p)
    ensures ParseNet(Encode(u) + y) == ParseNet(Encode(t) + x)
  {
    ParserMeans(t, x);
    ParserMeans(u, y);
    UnknownMeansNothing(t.pairs, i, p, Start());
    hide ParseNet, Encode, PairsMean, Verdict, Start, Valid;
  }
}
