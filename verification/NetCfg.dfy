/** The network config file: a CBOR map read pair by pair. */
module NetCfg {
  import opened Bytes
  import opened Cbor

  const SSID_MAX := 33
  const PASS_MAX := 64
  const AP_MAX := 4

  datatype Code = NetOk | ErrFormat | ErrSchema

  type Ssid = s: seq<byte> | |s| == SSID_MAX witness Zeros(SSID_MAX)

  type Pass = s: seq<byte> | |s| == PASS_MAX witness Zeros(PASS_MAX)

  type Aps = s: seq<Ap> | |s| == AP_MAX witness [BlankAp(), BlankAp(), BlankAp(), BlankAp()]

  /** One credential: two fixed fields, each ended by a zero byte. */
  datatype Ap = Ap(ssid: Ssid, pass: Pass)

  datatype Config = Config(count: nat, present: bool, ip: seq<byte>, port: nat, aps: Aps)

  function Zeros(n: nat): (r: seq<byte>)
    ensures |r| == n
  {
    if n == 0 then [] else Zeros(n - 1) + [0]
  }

  function BlankAp(): Ap { Ap(Zeros(SSID_MAX), Zeros(PASS_MAX)) }

  function Blank(): Config { Config(0, false, [0, 0, 0, 0], 0, [BlankAp(), BlankAp(), BlankAp(), BlankAp()]) }

  /** Copies a text into a field, cut to leave room for the zero byte; what was behind it stays. */
  function CopyText(dst: seq<byte>, s: seq<byte>): (r: seq<byte>)
    requires |dst| > 0
    ensures |r| == |dst|
  {
    var n := if |s| >= |dst| then |dst| - 1 else |s|;
    s[..n] + [0] + dst[n + 1..]
  }

  function SetSsid(ap: Ap, s: seq<byte>): Ap { ap.(ssid := CopyText(ap.ssid, s)) }

  function SetPass(ap: Ap, s: seq<byte>): Ap { ap.(pass := CopyText(ap.pass, s)) }

  // ---- Keys ---------------------------------------------------------------------------

  const KEY_V: seq<byte> := [0x76]
  const KEY_IP: seq<byte> := [0x69, 0x70]
  const KEY_PT: seq<byte> := [0x70, 0x74]
  const KEY_SS: seq<byte> := [0x73, 0x73]
  const KEY_PW: seq<byte> := [0x70, 0x77]
  const KEY_APS: seq<byte> := [0x61, 0x70, 0x73]

  predicate KnownKey(k: seq<byte>) { k in {KEY_V, KEY_IP, KEY_PT, KEY_SS, KEY_PW, KEY_APS} }

  // ---- One credential map -------------------------------------------------------------

  /** A step over the bytes: what it leaves of the value being filled in, and the rest of the bytes
      unless it failed. */
  datatype Step<T> = Step(value: T, rest: Option<seq<byte>>)

  function ApPair(s: seq<byte>, ap: Ap): (r: Step<Ap>)
    ensures r.rest.Some? ==> |r.rest.value| < |s|
  {
    var k := ReadStr(s, TEXT);
    if k.None? then Step(ap, None)
    else
      var (key, rest) := k.value;
      if key == KEY_SS then
        var t := ReadStr(rest, TEXT);
        if t.None? then Step(ap, None) else Step(SetSsid(ap, t.value.0), Some(t.value.1))
      else if key == KEY_PW then
        var t := ReadStr(rest, TEXT);
        if t.None? then Step(ap, None) else Step(SetPass(ap, t.value.0), Some(t.value.1))
      else Step(ap, Skip(rest))
  }

  function ApPairs(s: seq<byte>, n: nat, ap: Ap): (r: Step<Ap>)
    ensures r.rest.Some? ==> |r.rest.value| <= |s|
    decreases n
  {
    if n == 0 then Step(ap, Some(s))
    else
      var p := ApPair(s, ap);
      if p.rest.None? then p else ApPairs(p.rest.value, n - 1, p.value)
  }

  function ParseAp(s: seq<byte>, ap: Ap): (r: Step<Ap>)
    ensures r.rest.Some? ==> |r.rest.value| <= |s|
  {
    var o := Open(s, MAP);
    if o.None? then Step(ap, None) else ApPairs(o.value.1, o.value.0, ap)
  }

  /** Elements j on of the credential list, of n: the first four are kept, the rest skipped. */
  function ApList(s: seq<byte>, j: nat, n: nat, c: Config): (r: Step<Config>)
    requires j <= n
    ensures r.rest.Some? ==> |r.rest.value| <= |s|
    decreases n - j
  {
    if j == n then Step(c, Some(s))
    else if j < AP_MAX then
      var a := ParseAp(s, c.aps[j]);
      var d := c.(aps := c.aps[j := a.value]);
      if a.rest.None? then Step(d, None) else ApList(a.rest.value, j + 1, n, d)
    else
      var r := Skip(s);
      if r.None? then Step(c, None) else ApList(r.value, j + 1, n, c)
  }

  // ---- The whole map ------------------------------------------------------------------

  /** What the loop over the pairs carries: the schema version, whether it was seen, the output. */
  datatype Acc = Acc(version: nat, seen: bool, out: Config)

  function FirstAp(c: Config, ap: Ap): Config
  {
    c.(aps := c.aps[0 := ap], count := if c.count < 1 then 1 else c.count)
  }

  /** The value of a pair, after its key. */
  function NetValue(key: seq<byte>, s: seq<byte>, a: Acc): (r: Step<Acc>)
    ensures r.rest.Some? ==> |r.rest.value| < |s|
  {
    if key == KEY_V then
      var u := ReadUInt(s);
      if u.None? then Step(a, None) else Step(a.(version := u.value.0, seen := true), Some(u.value.1))
    else if key == KEY_IP then
      var t := ReadStr(s, BYTES);
      if t.None? || |t.value.0| != 4 then Step(a, None)
      else Step(a.(out := a.out.(ip := t.value.0)), Some(t.value.1))
    else if key == KEY_PT then
      var u := ReadUInt(s);
      if u.None? then Step(a, None)
      else Step(a.(out := a.out.(port := u.value.0 % 0x10000)), Some(u.value.1))
    else if key == KEY_SS then
      var t := ReadStr(s, TEXT);
      if t.None? then Step(a, None)
      else Step(a.(out := FirstAp(a.out, SetSsid(a.out.aps[0], t.value.0))), Some(t.value.1))
    else if key == KEY_PW then
      var t := ReadStr(s, TEXT);
      if t.None? then Step(a, None)
      else Step(a.(out := FirstAp(a.out, SetPass(a.out.aps[0], t.value.0))), Some(t.value.1))
    else if key == KEY_APS then
      var o := Open(s, ARRAY);
      if o.None? then Step(a, None)
      else
        var l := ApList(o.value.1, 0, o.value.0, a.out);
        if l.rest.None? then Step(a.(out := l.value), None)
        else Step(a.(out := l.value.(count := if o.value.0 > AP_MAX then AP_MAX else o.value.0)), l.rest)
    else Step(a, Skip(s))
  }

  function NetPair(s: seq<byte>, a: Acc): (r: Step<Acc>)
    ensures r.rest.Some? ==> |r.rest.value| < |s|
  {
    var k := ReadStr(s, TEXT);
    if k.None? then Step(a, None) else NetValue(k.value.0, k.value.1, a)
  }

  function NetPairs(s: seq<byte>, n: nat, a: Acc): (r: Step<Acc>)
    decreases n
  {
    if n == 0 then Step(a, Some(s))
    else
      var p := NetPair(s, a);
      if p.rest.None? then p else NetPairs(p.rest.value, n - 1, p.value)
  }

  /** The checks after the last pair. */
  function Verdict(a: Acc): (Code, Config)
  {
    if !a.seen then (ErrFormat, a.out)
    else if a.version < 1 || a.version > 2 then (ErrSchema, a.out)
    else if a.out.count == 0 || a.out.aps[0].ssid[0] == 0 then (ErrFormat, a.out)
    else (NetOk, a.out.(present := true))
  }

  function Start(): Acc { Acc(0, false, Blank()) }

  function ParseNet(s: seq<byte>): (Code, Config) {
    var o := Open(s, MAP);
    if o.None? then (ErrFormat, Blank())
    else
      var r := NetPairs(o.value.1, o.value.0, Start());
      if r.rest.None? then (ErrFormat, r.value.out) else Verdict(r.value)
  }

  // ---- What the items mean ------------------------------------------------------------

  /** The same on item trees: no value means that the item is not what the key calls for. */
  datatype Meaning<T> = Meaning(value: T, ok: bool)

  function ApPairMeans(p: Pair, ap: Ap): Meaning<Ap> {
    if !p.key.Text? then Meaning(ap, false)
    else if p.key.bytes == KEY_SS then
      if p.value.Text? then Meaning(SetSsid(ap, p.value.bytes), true) else Meaning(ap, false)
    else if p.key.bytes == KEY_PW then
      if p.value.Text? then Meaning(SetPass(ap, p.value.bytes), true) else Meaning(ap, false)
    else Meaning(ap, true)
  }

  function ApMeans(ps: seq<Pair>, ap: Ap): Meaning<Ap>
    decreases |ps|
  {
    if ps == [] then Meaning(ap, true)
    else
      var m := ApPairMeans(ps[0], ap);
      if m.ok then ApMeans(ps[1..], m.value) else m
  }

  function ListMeans(ts: seq<Item>, j: nat, c: Config): (r: Meaning<Config>)
    requires j <= |ts|
    decreases |ts| - j
  {
    if j == |ts| || j >= AP_MAX then Meaning(c, true)
    else if !ts[j].Map? then Meaning(c, false)
    else
      var m := ApMeans(ts[j].pairs, c.aps[j]);
      var d := c.(aps := c.aps[j := m.value]);
      if m.ok then ListMeans(ts, j + 1, d) else Meaning(d, false)
  }

  function ValueMeans(key: seq<byte>, t: Item, a: Acc): Meaning<Acc> {
    if key == KEY_V then
      if t.UInt? then Meaning(a.(version := t.value, seen := true), true) else Meaning(a, false)
    else if key == KEY_IP then
      if t.Bytes? && |t.bytes| == 4 then Meaning(a.(out := a.out.(ip := t.bytes)), true) else Meaning(a, false)
    else if key == KEY_PT then
      if t.UInt? then Meaning(a.(out := a.out.(port := t.value % 0x10000)), true) else Meaning(a, false)
    else if key == KEY_SS then
      if t.Text? then Meaning(a.(out := FirstAp(a.out, SetSsid(a.out.aps[0], t.bytes))), true) else Meaning(a, false)
    else if key == KEY_PW then
      if t.Text? then Meaning(a.(out := FirstAp(a.out, SetPass(a.out.aps[0], t.bytes))), true) else Meaning(a, false)
    else if key == KEY_APS then
      if !t.Array? then Meaning(a, false)
      else
        var l := ListMeans(t.items, 0, a.out);
        if !l.ok then Meaning(a.(out := l.value), false)
        else Meaning(a.(out := l.value.(count := if |t.items| > AP_MAX then AP_MAX else |t.items|)), true)
    else Meaning(a, true)
  }

  function PairMeans(p: Pair, a: Acc): Meaning<Acc> {
    if p.key.Text? then ValueMeans(p.key.bytes, p.value, a) else Meaning(a, false)
  }

  function PairsMean(ps: seq<Pair>, a: Acc): (r: Meaning<Acc>)
    decreases |ps|
  {
    if ps == [] then Meaning(a, true)
    else
      var m := PairMeans(ps[0], a);
      if m.ok then PairsMean(ps[1..], m.value) else m
  }

  /** What a config file that is a map of these pairs means. */
  function NetMeans(ps: seq<Pair>): (Code, Config) {
    var m := PairsMean(ps, Start());
    if m.ok then Verdict(m.value) else (ErrFormat, m.value.out)
  }
}
