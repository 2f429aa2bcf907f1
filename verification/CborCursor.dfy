/** The CBOR reader and the config parser as the program runs them, over a cursor into the buffer. */
module CborCursor {
  import opened Bytes
  import opened Cbor
  import opened NetCfg
  import L = NetCfgLaws

  lemma BigSnoc(s: seq<byte>, a: nat, b: nat)
    requires a <= b < |s|
    ensures BigEndian(s[a..b + 1]) == 256 * BigEndian(s[a..b]) + s[b]
  {
    assert s[a..b + 1][..b - a] == s[a..b];
  }

  lemma BigNone(s: seq<byte>, a: nat)
    requires a <= |s|
    ensures BigEndian(s[a..a]) == 0
  {
  }

  lemma Drop(s: seq<byte>, a: nat, b: nat)
    requires a + b <= |s|
    ensures s[a..][b..] == s[a + b..]
  {
  }

  lemma SkipManyStep(s: seq<byte>, n: nat)
    ensures SkipMany(s, n) == if n == 0 then Some(s) else if Skip(s).None? then None else SkipMany(Skip(s).value, n - 1)
  {
    hide Skip;
  }

  class Cursor {
    const buf: seq<byte>
    var pos: nat

    ghost predicate Valid()
      reads this`pos
    {
      pos <= |buf|
    }

    ghost function Rest(): seq<byte>
      requires Valid()
      reads this`pos
    {
      buf[pos..]
    }

    constructor (buf: seq<byte>)
      ensures Valid() && this.buf == buf && Rest() == buf
    {
      this.buf := buf;
      pos := 0;
    }

    /** One header. A failed read may leave the cursor anywhere in the buffer. */
    method Hdr() returns (ok: bool, major: nat, arg: nat)
      requires Valid()
      modifies this`pos
      ensures Valid() && ok == Header(old(Rest())).Some?
      ensures ok ==> Header(old(Rest())) == Some(Head(major, arg, Rest()))
      ensures ok ==> pos > old(pos)
    {
      hide BigEndian;
      ok, major, arg := false, 0, 0;
      if pos >= |buf| {
        return;
      }
      ghost var s := Rest();
      var b := buf[pos];
      pos := pos + 1;
      major := b / 32;
      var n := b % 32;
      if n >= 28 {
        return;
      }
      var v: nat := if n < 24 then n else 0;
      var nb := if n == 24 then 1 else if n == 25 then 2 else if n == 26 then 4 else if n == 27 then 8 else 0;
      assert nb == Extra(n);
      var start := pos;
      BigNone(buf, start);
      var i := 0;
      while i < nb
        invariant 0 <= i <= nb && Valid() && pos == start + i
        invariant nb > 0 ==> v == BigEndian(buf[start..pos])
        invariant nb == 0 ==> v == n
      {
        if pos >= |buf| {
          return;
        }
        BigSnoc(buf, start, pos);
        v := v * 256 + buf[pos];
        pos := pos + 1;
        i := i + 1;
      }
      assert s[1..1 + nb] == buf[start..pos] && s[1 + nb..] == buf[pos..];
      return true, major, v;
    }

    method UIntItem() returns (ok: bool, value: nat)
      requires Valid()
      modifies this`pos
      ensures Valid() && ok == ReadUInt(old(Rest())).Some?
      ensures ok ==> ReadUInt(old(Rest())) == Some((value, Rest()))
      ensures !ok ==> pos == old(pos)
    {
      hide Header;
      var s := pos;
      var major;
      ok, major, value := Hdr();
      if !ok || major != UINT {
        pos := s;
        return false, 0;
      }
    }

    method Str(want: nat) returns (ok: bool, str: seq<byte>)
      requires Valid()
      modifies this`pos
      ensures Valid() && ok == ReadStr(old(Rest()), want).Some?
      ensures ok ==> ReadStr(old(Rest()), want) == Some((str, Rest()))
      ensures !ok ==> pos == old(pos)
    {
      hide Header;
      var s := pos;
      var major, a;
      ok, major, a := Hdr();
      if !ok || major != want || pos + a > |buf| {
        pos := s;
        return false, [];
      }
      str := buf[pos..pos + a];
      assert Rest()[..a] == str;
      Drop(buf, pos, a);
      pos := pos + a;
    }

    method OpenItem(want: nat) returns (ok: bool, count: nat)
      requires Valid()
      modifies this`pos
      ensures Valid() && ok == Open(old(Rest()), want).Some?
      ensures ok ==> Open(old(Rest()), want) == L.Opened(count, Rest())
      ensures !ok ==> pos == old(pos)
    {
      hide Header;
      var s := pos;
      var major;
      ok, major, count := Hdr();
      if !ok || major != want {
        pos := s;
        return false, 0;
      }
    }

    method SkipItem() returns (ok: bool)
      requires Valid()
      modifies this`pos
      ensures Valid() && ok == Skip(old(Rest())).Some?
      ensures ok ==> Skip(old(Rest())) == Some(Rest()) && pos > old(pos)
      decreases |buf| - pos, 0
    {
      hide Header, SkipMany;
      var major, a;
      ok, major, a := Hdr();
      if !ok {
        return;
      }
      if major == UINT {
        return true;
      } else if major == BYTES || major == TEXT {
        if pos + a > |buf| {
          return false;
        }
        Drop(buf, pos, a);
        pos := pos + a;
        return true;
      } else if major == ARRAY {
        ok := SkipLoop(a);
      } else if major == MAP {
        ok := SkipLoop(2 * a % 0x1_0000_0000_0000_0000);
      } else {
        ok := false;
      }
    }

    /** The loop over the elements of an array or map. */
    method SkipLoop(n: nat) returns (ok: bool)
      requires Valid()
      modifies this`pos
      ensures Valid() && ok == SkipMany(old(Rest()), n).Some?
      ensures ok ==> SkipMany(old(Rest()), n) == Some(Rest()) && pos >= old(pos)
      decreases |buf| - pos, 1
    {
      hide Skip, SkipMany;
      ghost var goal := SkipMany(Rest(), n);
      var i := 0;
      while i < n
        invariant 0 <= i <= n && Valid() && pos >= old(pos) && SkipMany(Rest(), n - i) == goal
      {
        SkipManyStep(Rest(), n - i);
        ok := SkipItem();
        if !ok {
          return;
        }
        i := i + 1;
      }
      SkipManyStep(Rest(), 0);
      ok := true;
    }

    // ---- The config file ------------------------------------------------------------

    method ParseApMap(before: Ap) returns (ok: bool, ap: Ap)
      requires Valid()
      modifies this`pos
      ensures Valid()
      ensures var r := ParseAp(old(Rest()), before);
        ok == r.rest.Some? && ap == r.value && (ok ==> r.rest == Some(Rest()))
    {
      hide Open, ApPairs, ApPair;
      ap := before;
      var n;
      ok, n := OpenItem(MAP);
      if !ok {
        return;
      }
      ghost var goal := ApPairs(Rest(), n, ap);
      var i := 0;
      while i < n
        invariant 0 <= i <= n && Valid() && ApPairs(Rest(), n - i, ap) == goal
      {
        L.ApPairsStep(Rest(), n - i, ap);
        ok, ap := ParseApPair(ap);
        if !ok {
          return;
        }
        i := i + 1;
      }
      ApPairsDone(Rest(), ap);
      ok := true;
    }

    static lemma ApPairsDone(s: seq<byte>, ap: Ap)
      ensures ApPairs(s, 0, ap) == Step(ap, Some(s))
    {
    }

    method ParseApPair(before: Ap) returns (ok: bool, ap: Ap)
      requires Valid()
      modifies this`pos
      ensures Valid()
      ensures var r := ApPair(old(Rest()), before);
        ok == r.rest.Some? && ap == r.value && (ok ==> r.rest == Some(Rest()))
    {
      hide ReadStr, Skip, SetSsid, SetPass;
      ap := before;
      var k, t;
      ok, k := Str(TEXT);
      if !ok {
        return;
      }
      if k == KEY_SS {
        ok, t := Str(TEXT);
        if ok {
          ap := SetSsid(ap, t);
        }
      } else if k == KEY_PW {
        ok, t := Str(TEXT);
        if ok {
          ap := SetPass(ap, t);
        }
      } else {
        ok := SkipItem();
      }
    }

    method ParseList(before: Config, n: nat) returns (ok: bool, c: Config)
      requires Valid()
      modifies this`pos
      ensures Valid()
      ensures var r := ApList(old(Rest()), 0, n, before);
        ok == r.rest.Some? && c == r.value && (ok ==> r.rest == Some(Rest()))
    {
      hide ApList, ParseAp, Skip;
      c := before;
      ghost var goal := ApList(Rest(), 0, n, c);
      var j := 0;
      while j < n
        invariant 0 <= j <= n && Valid() && ApList(Rest(), j, n, c) == goal
      {
        L.ApListStep(Rest(), j, n, c);
        if j < AP_MAX {
          var ap;
          ok, ap := ParseApMap(c.aps[j]);
          c := c.(aps := c.aps[j := ap]);
        } else {
          ok := SkipItem();
        }
        if !ok {
          return;
        }
        j := j + 1;
      }
      L.ApListDone(Rest(), n, c);
      ok := true;
    }

    method ParseValue(key: seq<byte>, before: Acc) returns (ok: bool, a: Acc)
      requires Valid()
      modifies this`pos
      ensures Valid()
      ensures var r := NetValue(key, old(Rest()), before);
        ok == r.rest.Some? && a == r.value && (ok ==> r.rest == Some(Rest()))
    {
      hide ReadStr, ReadUInt, Open, ApList, Skip, SetSsid, SetPass, FirstAp;
      a := before;
      if key == KEY_V {
        var v;
        ok, v := UIntItem();
        if ok {
          a := a.(version := v, seen := true);
        }
      } else if key == KEY_IP {
        var s;
        ok, s := Str(BYTES);
        if !ok || |s| != 4 {
          return false, a;
        }
        a := a.(out := a.out.(ip := s));
      } else if key == KEY_PT {
        var p;
        ok, p := UIntItem();
        if ok {
          a := a.(out := a.out.(port := p % 0x10000));
        }
      } else if key == KEY_SS {
        var s;
        ok, s := Str(TEXT);
        if ok {
          a := a.(out := FirstAp(a.out, SetSsid(a.out.aps[0], s)));
        }
      } else if key == KEY_PW {
        var s;
        ok, s := Str(TEXT);
        if ok {
          a := a.(out := FirstAp(a.out, SetPass(a.out.aps[0], s)));
        }
      } else if key == KEY_APS {
        var n, c;
        ok, n := OpenItem(ARRAY);
        if !ok {
          return;
        }
        ok, c := ParseList(a.out, n);
        if ok {
          c := c.(count := if n > AP_MAX then AP_MAX else n);
        }
        a := a.(out := c);
      } else {
        ok := SkipItem();
      }
    }

    method ParsePair(before: Acc) returns (ok: bool, a: Acc)
      requires Valid()
      modifies this`pos
      ensures Valid()
      ensures var r := NetPair(old(Rest()), before);
        ok == r.rest.Some? && a == r.value && (ok ==> r.rest == Some(Rest()))
    {
      hide ReadStr, NetValue;
      a := before;
      var k;
      ok, k := Str(TEXT);
      if ok {
        ok, a := ParseValue(k, a);
      }
    }

    method ParseNetcfg() returns (code: Code, out: Config)
      requires Valid()
      modifies this`pos
      ensures Valid() && (code, out) == ParseNet(old(Rest()))
    {
      hide Open, NetPairs, NetPair, Blank;
      out := Blank();
      var ok, n := OpenItem(MAP);
      if !ok {
        return ErrFormat, out;
      }
      var a := Acc(0, false, out);
      ghost var goal := NetPairs(Rest(), n, a);
      var i := 0;
      while i < n
        invariant 0 <= i <= n && Valid() && NetPairs(Rest(), n - i, a) == goal
      {
        L.NetPairsStep(Rest(), n - i, a);
        ok, a := ParsePair(a);
        if !ok {
          return ErrFormat, a.out;
        }
        i := i + 1;
      }
      L.NoNetPairs(a, Rest());
      out := a.out;
      if !a.seen {
        return ErrFormat, out;
      }
      if a.version < 1 || a.version > 2 {
        return ErrSchema, out;
      }
      if out.count == 0 || out.aps[0].ssid[0] == 0 {
        return ErrFormat, out;
      }
      return NetOk, out.(present := true);
    }
  }
}
