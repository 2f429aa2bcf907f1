/** What a network config file says, stated on its items without the parser's own steps: which files are
    good, and where the text of each key ends up. */
module NetCfgMeaning {
  import opened Bytes
  import opened Cbor
  import opened NetCfg

  predicate IsAscii(s: string) { forall i :: 0 <= i < |s| ==> s[i] as int < 128 }

  function Ascii(s: string): (r: seq<byte>)
    requires IsAscii(s)
  {
    seq(|s|, i requires 0 <= i < |s| => s[i] as int)
  }

  predicate Keyed(p: Pair, key: string)
    requires IsAscii(key)
  {
    p.key.Text? && p.key.bytes == Ascii(key)
  }

  lemma Keys()
    ensures IsAscii("v") && Ascii("v") == KEY_V && IsAscii("ip") && Ascii("ip") == KEY_IP
    ensures IsAscii("pt") && Ascii("pt") == KEY_PT && IsAscii("ss") && Ascii("ss") == KEY_SS
    ensures IsAscii("pw") && Ascii("pw") == KEY_PW && IsAscii("aps") && Ascii("aps") == KEY_APS
  {
  }

  /** The value of the last pair with a key. */
  function LastOf(ps: seq<Pair>, key: string): Option<Item>
    requires IsAscii(key)
  {
    if ps == [] then None
    else
      var later := LastOf(ps[1..], key);
      if later.Some? then later else if Keyed(ps[0], key) then Some(ps[0].value) else None
  }

  /** A field holds a text, cut to `max` bytes and ended by a zero byte. */
  predicate Holds(field: seq<byte>, text: seq<byte>, max: nat) {
    var n := if |text| <= max then |text| else max;
    |field| > n && field[..n] == text[..n] && field[n] == 0
  }

  // ---- Credentials --------------------------------------------------------------------

  lemma CopyHolds(dst: seq<byte>, s: seq<byte>)
    requires |dst| > 0
    ensures Holds(CopyText(dst, s), s, |dst| - 1)
  {
  }

  /** A credential map is well formed: text keys, and text under the two keys that count. */
  predicate ApTyped(ps: seq<Pair>) {
    forall i :: 0 <= i < |ps| ==>
      && ps[i].key.Text?
      && (ps[i].key.bytes == [0x73, 0x73] || ps[i].key.bytes == [0x70, 0x77] ==> ps[i].value.Text?)
  }

  lemma {:induction false} ApTypedIff(ps: seq<Pair>, ap: Ap)
    ensures ApMeans(ps, ap).ok <==> ApTyped(ps)
    decreases |ps|
  {
    hide SetSsid, SetPass;
    if ps != [] {
      ApTypedIff(ps[1..], ApPairMeans(ps[0], ap).value);
      assert ApTyped(ps) <==> ApTyped([ps[0]]) && ApTyped(ps[1..]) by {
        ApTypedSplit(ps);
      }
    }
  }

  lemma ApTypedSplit(ps: seq<Pair>)
    requires ps != []
    ensures ApTyped(ps) <==> ApTyped([ps[0]]) && ApTyped(ps[1..])
  {
    if ApTyped([ps[0]]) && ApTyped(ps[1..]) {
      forall i | 0 <= i < |ps|
        ensures ps[i].key.Text?
        ensures ps[i].key.bytes == [0x73, 0x73] || ps[i].key.bytes == [0x70, 0x77] ==> ps[i].value.Text?
      {
        if i > 0 {
          assert ps[i] == ps[1..][i - 1];
        } else {
          assert ps[0] == [ps[0]][0];
        }
      }
    } else if ApTyped(ps) {
      assert forall i :: 0 <= i < |ps[1..]| ==> ps[1..][i] == ps[i + 1];
    }
  }

  /** What a field holds after a list of pairs: the last text given for it, or what it was. */
  ghost predicate FieldIs(field: seq<byte>, before: seq<byte>, last: Option<Item>, max: nat) {
    match last
    case None => field == before
    case Some(t) => t.Text? && Holds(field, t.bytes, max)
  }

  /** The text of the last "ss" pair stands in the ssid, cut to 32 bytes, that of the last "pw" pair in
      the pass phrase, cut to 63. */
  lemma {:induction false} ApHolds(ps: seq<Pair>, ap: Ap)
    requires ApMeans(ps, ap).ok
    ensures IsAscii("ss") && IsAscii("pw")
    ensures var r := ApMeans(ps, ap).value;
      FieldIs(r.ssid, ap.ssid, LastOf(ps, "ss"), 32) && FieldIs(r.pass, ap.pass, LastOf(ps, "pw"), 63)
    decreases |ps|
  {
    Keys();
    if ps != [] {
      var m := ApPairMeans(ps[0], ap);
      ApHolds(ps[1..], m.value);
      if ps[0].value.Text? {
        CopyHolds(ap.ssid, ps[0].value.bytes);
        CopyHolds(ap.pass, ps[0].value.bytes);
      }
      hide CopyText, Holds, Ascii;
    }
  }

  /** The credential list: its first four elements are credential maps. */
  predicate ListTyped(ts: seq<Item>) {
    forall j :: 0 <= j < |ts| && j < 4 ==> ts[j].Map? && ApTyped(ts[j].pairs)
  }

  lemma {:induction false} ListTypedIff(ts: seq<Item>, j: nat, c: Config)
    requires j <= |ts|
    ensures ListMeans(ts, j, c).ok <==> forall k :: j <= k < |ts| && k < 4 ==> ts[k].Map? && ApTyped(ts[k].pairs)
    decreases |ts| - j
  {
    hide ApMeans, ApTyped;
    if j < |ts| && j < 4 && ts[j].Map? {
      ApTypedIff(ts[j].pairs, c.aps[j]);
      ListTypedIff(ts, j + 1, c.(aps := c.aps[j := ApMeans(ts[j].pairs, c.aps[j]).value]));
    }
  }

  /** A credential is what the pairs say, on top of what stood there. */
  ghost predicate ApIs(after: Ap, before: Ap, ps: seq<Pair>)
    requires IsAscii("ss") && IsAscii("pw")
  {
    && FieldIs(after.ssid, before.ssid, LastOf(ps, "ss"), 32)
    && FieldIs(after.pass, before.pass, LastOf(ps, "pw"), 63)
  }

  lemma {:induction false} ListHolds(ts: seq<Item>, j: nat, c: Config)
    requires j <= |ts| && ListMeans(ts, j, c).ok && IsAscii("ss") && IsAscii("pw")
    ensures var r := ListMeans(ts, j, c).value;
      && r == c.(aps := r.aps)
      && (forall k :: j <= k < |ts| && k < 4 ==> ts[k].Map? && ApIs(r.aps[k], c.aps[k], ts[k].pairs))
      && (forall k :: 0 <= k < 4 && !(j <= k < |ts|) ==> r.aps[k] == c.aps[k])
    decreases |ts| - j
  {
    hide ApMeans, ApIs;
    if j < |ts| && j < 4 {
      var m := ApMeans(ts[j].pairs, c.aps[j]);
      var d := c.(aps := c.aps[j := m.value]);
      OneHolds(ts[j], c.aps[j]);
      ListHolds(ts, j + 1, d);
    }
  }

  lemma OneHolds(t: Item, ap: Ap)
    requires t.Map? && ApMeans(t.pairs, ap).ok && IsAscii("ss") && IsAscii("pw")
    ensures ApIs(ApMeans(t.pairs, ap).value, ap, t.pairs)
  {
    hide ApMeans, FieldIs;
    ApHolds(t.pairs, ap);
  }

  // ---- The whole file -----------------------------------------------------------------

  /** A pair is what its key calls for. */
  predicate PairTyped(p: Pair) {
    && p.key.Text?
    && (p.key.bytes == [0x76] || p.key.bytes == [0x70, 0x74] ==> p.value.UInt?)
    && (p.key.bytes == [0x69, 0x70] ==> p.value.Bytes? && |p.value.bytes| == 4)
    && (p.key.bytes == [0x73, 0x73] || p.key.bytes == [0x70, 0x77] ==> p.value.Text?)
    && (p.key.bytes == [0x61, 0x70, 0x73] ==> p.value.Array? && ListTyped(p.value.items))
  }

  predicate Typed(ps: seq<Pair>) { forall i :: 0 <= i < |ps| ==> PairTyped(ps[i]) }

  lemma PairTypedIff(p: Pair, a: Acc)
    ensures PairMeans(p, a).ok <==> PairTyped(p)
  {
    hide ListMeans, CopyText;
    if p.key.Text? && p.value.Array? {
      ListTypedIff(p.value.items, 0, a.out);
    }
  }

  lemma {:induction false} TypedIff(ps: seq<Pair>, a: Acc)
    ensures PairsMean(ps, a).ok <==> Typed(ps)
    decreases |ps|
  {
    hide PairMeans, PairTyped;
    if ps != [] {
      PairTypedIff(ps[0], a);
      TypedIff(ps[1..], PairMeans(ps[0], a).value);
      TypedSplit(ps);
    }
  }

  lemma TypedSplit(ps: seq<Pair>)
    requires ps != []
    ensures Typed(ps) <==> PairTyped(ps[0]) && Typed(ps[1..])
  {
    hide PairTyped;
    if PairTyped(ps[0]) && Typed(ps[1..]) {
      forall i | 0 <= i < |ps|
        ensures PairTyped(ps[i])
      {
        if i > 0 {
          assert ps[i] == ps[1..][i - 1];
        }
      }
    }
  }

  /** Version, address and port after the pairs: the last value given, or what was there. */
  ghost predicate NumbersAre(after: Acc, before: Acc, v: Option<Item>, ip: Option<Item>, pt: Option<Item>) {
    && after.out.present == before.out.present
    && (match v
        case None => after.version == before.version && after.seen == before.seen
        case Some(t) => t.UInt? && after.version == t.value && after.seen)
    && (match ip
        case None => after.out.ip == before.out.ip
        case Some(t) => t.Bytes? && |t.bytes| == 4 && after.out.ip == t.bytes)
    && (match pt
        case None => after.out.port == before.out.port
        case Some(t) => t.UInt? && after.out.port == t.value % 0x10000)
  }

  ghost predicate PairNumbers(p: Pair, after: Acc, before: Acc)
    requires IsAscii("v") && IsAscii("ip") && IsAscii("pt")
  {
    NumbersAre(after, before, if Keyed(p, "v") then Some(p.value) else None,
      if Keyed(p, "ip") then Some(p.value) else None, if Keyed(p, "pt") then Some(p.value) else None)
  }

  lemma PairHasNumbers(p: Pair, a: Acc)
    requires PairMeans(p, a).ok
    ensures IsAscii("v") && IsAscii("ip") && IsAscii("pt")
    ensures PairNumbers(p, PairMeans(p, a).value, a)
  {
    Keys();
    if p.value.Array? && ListMeans(p.value.items, 0, a.out).ok {
      ListHolds(p.value.items, 0, a.out);
    }
    hide ListMeans, CopyText, Ascii;
  }

  lemma {:induction false} PairsHaveNumbers(ps: seq<Pair>, a: Acc)
    requires PairsMean(ps, a).ok
    ensures IsAscii("v") && IsAscii("ip") && IsAscii("pt")
    ensures NumbersAre(PairsMean(ps, a).value, a, LastOf(ps, "v"), LastOf(ps, "ip"), LastOf(ps, "pt"))
    decreases |ps|
  {
    Keys();
    hide PairMeans, Keyed;
    if ps != [] {
      PairHasNumbers(ps[0], a);
      PairsHaveNumbers(ps[1..], PairMeans(ps[0], a).value);
    }
  }

  // ---- Where the credentials come from ------------------------------------------------

  /** The pairs by which one top-level pair speaks about credential j. */
  function Source(p: Pair, j: nat): seq<Pair> {
    if !p.key.Text? then []
    else if p.key.bytes == [0x61, 0x70, 0x73] then
      if p.value.Array? && j < |p.value.items| && p.value.items[j].Map? then p.value.items[j].pairs else []
    else if j == 0 && (p.key.bytes == [0x73, 0x73] || p.key.bytes == [0x70, 0x77]) then [p]
    else []
  }

  function Sources(ps: seq<Pair>, j: nat): seq<Pair> {
    if ps == [] then [] else Source(ps[0], j) + Sources(ps[1..], j)
  }

  lemma {:induction false} LastOfBoth(ps: seq<Pair>, qs: seq<Pair>, key: string)
    requires IsAscii(key)
    ensures LastOf(ps + qs, key) == if LastOf(qs, key).Some? then LastOf(qs, key) else LastOf(ps, key)
  {
    if ps == [] {
      assert ps + qs == qs;
    } else {
      assert (ps + qs)[1..] == ps[1..] + qs;
      LastOfBoth(ps[1..], qs, key);
    }
  }

  lemma ThenIs(before: Ap, mid: Ap, after: Ap, ps: seq<Pair>, qs: seq<Pair>)
    requires IsAscii("ss") && IsAscii("pw")
    requires ApIs(mid, before, ps) && ApIs(after, mid, qs)
    ensures ApIs(after, before, ps + qs)
  {
    hide LastOf, Holds;
    LastOfBoth(ps, qs, "ss");
    LastOfBoth(ps, qs, "pw");
  }

  lemma LastOfNone(key: string)
    requires IsAscii(key)
    ensures LastOf([], key) == None
  {
  }

  lemma LastOfOne(p: Pair, key: string)
    requires IsAscii(key)
    ensures LastOf([p], key) == if Keyed(p, key) then Some(p.value) else None
  {
    assert [p][1..] == [];
  }

  lemma SourceSays(p: Pair, a: Acc, j: nat)
    requires PairMeans(p, a).ok && j < 4 && IsAscii("ss") && IsAscii("pw")
    ensures ApIs(PairMeans(p, a).value.out.aps[j], a.out.aps[j], Source(p, j))
  {
    Keys();
    if p.value.Array? && ListMeans(p.value.items, 0, a.out).ok {
      ListHolds(p.value.items, 0, a.out);
    }
    if p.value.Text? {
      CopyHolds(a.out.aps[0].ssid, p.value.bytes);
      CopyHolds(a.out.aps[0].pass, p.value.bytes);
    }
    LastOfNone("ss");
    LastOfNone("pw");
    LastOfOne(p, "ss");
    LastOfOne(p, "pw");
    hide ListMeans, CopyText, Holds, Ascii, LastOf;
  }

  lemma {:induction false} SourcesSay(ps: seq<Pair>, a: Acc, j: nat)
    requires PairsMean(ps, a).ok && j < 4 && IsAscii("ss") && IsAscii("pw")
    ensures ApIs(PairsMean(ps, a).value.out.aps[j], a.out.aps[j], Sources(ps, j))
    decreases |ps|
  {
    hide PairMeans, Source;
    if ps != [] {
      var m := PairMeans(ps[0], a);
      SourceSays(ps[0], a, j);
      SourcesSay(ps[1..], m.value, j);
      var after := PairsMean(ps, a).value.out.aps[j];
      ThenIs(a.out.aps[j], m.value.out.aps[j], after, Source(ps[0], j), Sources(ps[1..], j));
      hide ApIs;
    }
  }

  // ---- How many credentials there are -------------------------------------------------

  /** The pairs after the last with a key; all pairs if none has it. */
  function AfterLast(ps: seq<Pair>, key: string): seq<Pair>
    requires IsAscii(key)
  {
    if LastOf(ps, key).None? then ps else AfterLast(ps[1..], key)
  }

  /** The length of the last list, four at the most; a credential outside any list makes it one at least. */
  function CountFrom(n: nat, ps: seq<Pair>): nat
    requires IsAscii("ss") && IsAscii("pw") && IsAscii("aps")
  {
    var base := match LastOf(ps, "aps")
                case None => n
                case Some(Array(ts, _)) => if |ts| <= 4 then |ts| else 4
                case Some(_) => 0;
    var rest := AfterLast(ps, "aps");
    if base == 0 && (LastOf(rest, "ss").Some? || LastOf(rest, "pw").Some?) then 1 else base
  }

  lemma OneCounts(p: Pair, a: Acc)
    requires PairMeans(p, a).ok && IsAscii("ss") && IsAscii("pw") && IsAscii("aps")
    ensures Keyed(p, "aps") ==> p.value.Array?
    ensures PairMeans(p, a).value.out.count ==
            if Keyed(p, "aps") then if |p.value.items| <= 4 then |p.value.items| else 4
            else if (Keyed(p, "ss") || Keyed(p, "pw")) && a.out.count == 0 then 1 else a.out.count
    ensures !(Keyed(p, "aps") && (Keyed(p, "ss") || Keyed(p, "pw")))
  {
    Keys();
    hide ListMeans, CopyText, Ascii;
  }

  lemma CountStep(ps: seq<Pair>, n: nat, mid: nat)
    requires IsAscii("ss") && IsAscii("pw") && IsAscii("aps") && ps != []
    requires Keyed(ps[0], "aps") ==> ps[0].value.Array? && !Keyed(ps[0], "ss") && !Keyed(ps[0], "pw")
    requires mid == if Keyed(ps[0], "aps") then if |ps[0].value.items| <= 4 then |ps[0].value.items| else 4
                    else if (Keyed(ps[0], "ss") || Keyed(ps[0], "pw")) && n == 0 then 1 else n
    ensures CountFrom(n, ps) == CountFrom(mid, ps[1..])
  {
    hide Keyed;
    var rest := ps[1..];
    if LastOf(rest, "aps").Some? {
      assert LastOf(ps, "aps") == LastOf(rest, "aps") && AfterLast(ps, "aps") == AfterLast(rest, "aps");
    } else {
      assert AfterLast(rest, "aps") == rest;
      assert AfterLast(ps, "aps") == if Keyed(ps[0], "aps") then rest else ps;
    }
  }

  lemma {:induction false} CountHolds(ps: seq<Pair>, a: Acc)
    requires PairsMean(ps, a).ok && IsAscii("ss") && IsAscii("pw") && IsAscii("aps")
    ensures PairsMean(ps, a).value.out.count == CountFrom(a.out.count, ps)
    decreases |ps|
  {
    hide PairMeans, Keyed;
    if ps != [] {
      var m := PairMeans(ps[0], a);
      OneCounts(ps[0], a);
      CountHolds(ps[1..], m.value);
      CountStep(ps, a.out.count, m.value.out.count);
      hide CountFrom;
    }
  }

  // ---- What a file says ---------------------------------------------------------------

  /** A file names its first network: the last text given for it neither is empty nor starts with a zero. */
  predicate Named(ps: seq<Pair>)
    requires IsAscii("ss")
  {
    match LastOf(Sources(ps, 0), "ss")
    case Some(Text(b, _)) => b != [] && b[0] != 0
    case _ => false
  }

  predicate Versioned(ps: seq<Pair>)
    requires IsAscii("v")
  {
    match LastOf(ps, "v")
    case Some(UInt(n, _)) => n == 1 || n == 2
    case _ => false
  }

  lemma {:induction false} ZerosAre(n: nat)
    ensures forall i :: 0 <= i < n ==> Zeros(n)[i] == 0
  {
    if n > 0 {
      ZerosAre(n - 1);
    }
  }

  lemma FirstByte(ps: seq<Pair>)
    requires PairsMean(ps, Start()).ok && IsAscii("ss") && IsAscii("pw")
    ensures PairsMean(ps, Start()).value.out.aps[0].ssid[0] != 0 <==> Named(ps)
  {
    SourcesSay(ps, Start(), 0);
    ZerosAre(33);
    hide PairsMean, LastOf, Sources, Zeros;
  }

  /** A file is taken if and only if its pairs are well formed, its version is 1 or 2, it has a credential
      and the first has a name; any other version is told apart from the other faults. */
  lemma GoodExactly(ps: seq<Pair>)
    ensures IsAscii("v") && IsAscii("ss") && IsAscii("pw") && IsAscii("aps")
    ensures NetMeans(ps).0 == NetOk <==> Typed(ps) && Versioned(ps) && CountFrom(0, ps) > 0 && Named(ps)
    ensures NetMeans(ps).0 == ErrSchema <==> Typed(ps) && LastOf(ps, "v").Some? && !Versioned(ps)
  {
    Keys();
    TypedIff(ps, Start());
    if PairsMean(ps, Start()).ok {
      PairsHaveNumbers(ps, Start());
      CountHolds(ps, Start());
      FirstByte(ps);
    }
    hide PairsMean, LastOf, Typed, CountFrom, Named, Ascii;
  }

  /** A file that is taken is read as written: the count, the address and port with 0 where none is given,
      and each of the four credentials as its last texts, blank where there is none. */
  lemma GoodSays(ps: seq<Pair>)
    requires NetMeans(ps).0 == NetOk
    ensures IsAscii("ip") && IsAscii("pt") && IsAscii("ss") && IsAscii("pw") && IsAscii("aps")
    ensures NetMeans(ps).1.present && NetMeans(ps).1.count == CountFrom(0, ps)
    ensures match LastOf(ps, "ip")
            case None => NetMeans(ps).1.ip == [0, 0, 0, 0]
            case Some(t) => t.Bytes? && |t.bytes| == 4 && NetMeans(ps).1.ip == t.bytes
    ensures match LastOf(ps, "pt")
            case None => NetMeans(ps).1.port == 0
            case Some(t) => t.UInt? && NetMeans(ps).1.port == t.value % 0x10000
    ensures forall j :: 0 <= j < 4 ==> ApIs(NetMeans(ps).1.aps[j], BlankAp(), Sources(ps, j))
    ensures forall i :: 0 <= i < 33 ==> BlankAp().ssid[i] == 0
    ensures forall i :: 0 <= i < 64 ==> BlankAp().pass[i] == 0
  {
    Keys();
    ZerosAre(33);
    ZerosAre(64);
    PairsHaveNumbers(ps, Start());
    CountHolds(ps, Start());
    forall j | 0 <= j < 4
      ensures ApIs(PairsMean(ps, Start()).value.out.aps[j], BlankAp(), Sources(ps, j))
    {
      SourcesSay(ps, Start(), j);
    }
    hide PairsMean, LastOf, Sources, CountFrom, ApIs, Ascii, Zeros;
  }

  lemma {:induction false} ListPresent(ts: seq<Item>, j: nat, c: Config)
    requires j <= |ts|
    ensures ListMeans(ts, j, c).value.present == c.present
    decreases |ts| - j
  {
    hide ApMeans;
    if j < |ts| && j < 4 && ts[j].Map? && ApMeans(ts[j].pairs, c.aps[j]).ok {
      ListPresent(ts, j + 1, c.(aps := c.aps[j := ApMeans(ts[j].pairs, c.aps[j]).value]));
    }
  }

  lemma PairPresent(p: Pair, a: Acc)
    ensures PairMeans(p, a).value.out.present == a.out.present
  {
    if p.value.Array? {
      ListPresent(p.value.items, 0, a.out);
    }
    hide ListMeans, CopyText;
  }

  lemma {:induction false} PairsPresent(ps: seq<Pair>, a: Acc)
    ensures PairsMean(ps, a).value.out.present == a.out.present
    decreases |ps|
  {
    hide PairMeans;
    if ps != [] {
      PairPresent(ps[0], a);
      if PairMeans(ps[0], a).ok {
        PairsPresent(ps[1..], PairMeans(ps[0], a).value);
      }
    }
  }

  /** Good files, and no others, are called present. */
  lemma PresentIfGood(ps: seq<Pair>)
    ensures NetMeans(ps).1.present <==> NetMeans(ps).0 == NetOk
  {
    PairsPresent(ps, Start());
    hide PairsMean;
  }
}
