/** What an assembler makes of whole word streams: delivery, filtering, resynchronisation and
    the detection of corrupted words. */
module BusStream {
  import opened Bytes
  import Crc8
  import opened BusFrame

  function Run(a: Asm, ws: seq<word>): (r: (Asm, seq<Message>))
    requires a.Valid()
    ensures r.0.Valid() && r.0.myAddr == a.myAddr && r.0.promiscuous == a.promiscuous
    decreases |ws|
  {
    if ws == [] then (a, [])
    else
      var (a1, out) := Feed(a, ws[0]);
      var (a2, rest) := Run(a1, ws[1..]);
      (a2, (if out.Some? then [Meaning(out.value)] else []) + rest)
  }

  lemma {:induction false} RunConcat(a: Asm, u: seq<word>, v: seq<word>)
    requires a.Valid()
    ensures Run(a, u + v).0 == Run(Run(a, u).0, v).0
    ensures Run(a, u + v).1 == Run(a, u).1 + Run(Run(a, u).0, v).1
    decreases |u|
  {
    hide Feed;
    if u == [] {
      assert u + v == v;
    } else {
      RunConcat(Feed(a, u[0]).0, u[1..], v);
      assert (u + v)[1..] == u[1..] + v;
    }
  }

  lemma RunOne(a: Asm, w: word)
    requires a.Valid()
    ensures var (a1, out) := Feed(a, w);
      Run(a, [w]) == (a1, if out.Some? then [Meaning(out.value)] else [])
  {
    hide Feed;
    var a1 := Feed(a, w).0;
    assert [w][1..] == [];
    assert Run(a1, []) == (a1, []);
    assert forall m: seq<Message> {:trigger m + []} :: m + [] == m;
  }

  /** A word that completes nothing, then the rest. */
  lemma RunSilent(a: Asm, w: word, a1: Asm, ws: seq<word>)
    requires a.Valid() && Feed(a, w) == (a1, None)
    ensures Run(a, [w] + ws) == Run(a1, ws)
  {
    hide Feed;
    assert ([w] + ws)[1..] == ws;
    assert [] + Run(a1, ws).1 == Run(a1, ws).1;
  }

  lemma FeedAddress(a: Asm, d: byte)
    requires a.Valid() && d < 0x80
    ensures Feed(a, AddrWord(d))
         == (if a.promiscuous || d == a.myAddr || d == 0x7F then a.(acc := a.acc.(dest := d), phase := AwaitSrc)
             else a.(phase := Idle), None)
  {
    hide Crc8.Crc, AddrWord, IsAddr, Low;
    AddressSeen(d);
  }

  lemma AddressSeen(d: byte)
    requires d < 0x80
    ensures IsAddr(AddrWord(d)) && Low(AddrWord(d)) == d
  {
  }

  lemma FeedHeader(a1: Asm, src: byte, typ: byte, sq: byte, len: byte)
    requires a1.Valid() && a1.phase == AwaitSrc && len <= PAYLOAD_MAX
    ensures
      var a2 := a1.(acc := a1.acc.(src := src), phase := AwaitType);
      var a3 := a2.(acc := a2.acc.(typ := typ), phase := AwaitSeq);
      var a4 := a3.(acc := a3.acc.(sq := sq), phase := AwaitLen);
      && Feed(a1, src) == (a2, None)
      && Feed(a2, typ) == (a3, None)
      && Feed(a3, sq) == (a4, None)
      && Feed(a4, len)
         == (a4.(acc := a4.acc.(len := len), phase := if len == 0 then AwaitCrc else AwaitBody, idx := 0), None)
  {
    hide Crc8.Crc;
  }

  /** The assembler after the address word of a frame for it, then four header bytes. */
  lemma ReceiveHeader(a: Asm, d: byte, src: byte, typ: byte, sq: byte, len: byte)
    requires a.Valid() && d < 0x80 && (a.promiscuous || d == a.myAddr || d == 0x7F) && len <= PAYLOAD_MAX
    ensures Run(a, [AddrWord(d), src, typ, sq, len])
         == (a.(phase := if len == 0 then AwaitCrc else AwaitBody, idx := 0,
                acc := Frame(d, src, typ, sq, len, a.acc.payload)), [])
  {
    hide Run, Feed;
    var a1 := a.(acc := a.acc.(dest := d), phase := AwaitSrc);
    var a2 := a1.(acc := a1.acc.(src := src), phase := AwaitType);
    var a3 := a2.(acc := a2.acc.(typ := typ), phase := AwaitSeq);
    var a4 := a3.(acc := a3.acc.(sq := sq), phase := AwaitLen);
    var a5 := a4.(acc := a4.acc.(len := len), phase := if len == 0 then AwaitCrc else AwaitBody, idx := 0);
    FeedAddress(a, d);
    FeedHeader(a1, src, typ, sq, len);
    RunSilent(a, AddrWord(d), a1, [src, typ, sq, len]);
    RunSilent(a1, src, a2, [typ, sq, len]);
    RunSilent(a2, typ, a3, [sq, len]);
    RunSilent(a3, sq, a4, [len]);
    RunOne(a4, len);
    assert [AddrWord(d)] + [src, typ, sq, len] == [AddrWord(d), src, typ, sq, len];
    assert [src] + [typ, sq, len] == [src, typ, sq, len];
    assert [typ] + [sq, len] == [typ, sq, len];
    assert [sq] + [len] == [sq, len];
  }

  lemma {:induction false} ReceiveBody(a: Asm, data: seq<byte>)
    requires a.Valid() && a.phase == AwaitBody && a.idx + |data| == a.acc.len
    ensures var p := a.acc.payload;
      Run(a, data) == (a.(phase := AwaitCrc, idx := a.acc.len,
        acc := a.acc.(payload := p[..a.idx] + data + p[a.acc.len..])), [])
    decreases |data|
  {
    hide Run;
    var p := a.acc.payload;
    var a1 := Feed(a, data[0]).0;
    var p1 := a1.acc.payload;
    assert [data[0]] + data[1..] == data;
    RunSilent(a, data[0], a1, data[1..]);
    if |data| == 1 {
      RunOne(a, data[0]);
      assert data == [data[0]];
      assert p1 == p[..a.idx] + data + p[a.acc.len..];
    } else {
      ReceiveBody(a1, data[1..]);
      assert p1[..a1.idx] + data[1..] + p1[a.acc.len..] == p[..a.idx] + data + p[a.acc.len..];
    }
  }

  /** A received frame is delivered exactly when its last word is the checksum of the rest. */
  lemma Receive(a: Asm, d: byte, src: byte, typ: byte, sq: byte, data: seq<byte>, crc: byte)
    requires a.Valid() && d < 0x80 && (a.promiscuous || d == a.myAddr || d == 0x7F) && |data| <= PAYLOAD_MAX
    ensures
      var head := [AddrWord(d), src, typ, sq, |data|];
      var ok := Crc8.Crc([d, src, typ, sq, |data|] + data) == crc;
      var r := Run(a, head + data + [crc]);
      && Run(a, head + data).1 == []
      && r.1 == (if ok then [Message(d, src, typ, sq, data)] else [])
      && r.0.phase == Idle
      && r.0.crcFail == a.crcFail + (if ok then 0 else 1)
      && r.0.framesOk == a.framesOk + (if ok then 1 else 0)
  {
    hide Run, Feed, Crc8.Crc;
    var head := [AddrWord(d), src, typ, sq, |data|];
    var a2 := a.(phase := AwaitCrc, idx := |data|,
                 acc := Frame(d, src, typ, sq, |data|, data + a.acc.payload[|data|..]));
    ReceiveHeader(a, d, src, typ, sq, |data|);
    RunConcat(a, head, data);
    if data == [] {
      assert head + data == head;
      assert data + a.acc.payload[0..] == a.acc.payload;
    } else {
      ReceiveBody(Run(a, head).0, data);
      assert a.acc.payload[..0] + data == data;
    }
    RunConcat(a, head + data, [crc]);
    RunOne(a2, crc);
    FeedCrc(a2, [d, src, typ, sq, |data|] + data, crc);
  }

  lemma FeedCrc(a: Asm, covered: seq<byte>, crc: byte)
    requires a.Valid() && a.phase == AwaitCrc && a.acc.Covered() == covered
    ensures Feed(a, crc) == if Crc8.Crc(covered) == crc
      then (a.(phase := Idle, framesOk := a.framesOk + 1), Some(a.acc))
      else (a.(phase := Idle, crcFail := a.crcFail + 1), None)
  {
    hide Crc8.Crc;
  }

  /** What an assembler delivers while it reads the preamble: at most the end of a frame that
      was already under way. */
  function AtPreamble(a: Asm): (Asm, seq<Message>)
    requires a.Valid()
  {
    Run(a, [PREAMBLE])
  }

  lemma EncodeParts(f: Frame)
    ensures var m := Meaning(f);
      Encode(f) == [PREAMBLE] + ([AddrWord(f.dest % 0x80), f.src, f.typ, f.sq, |m.data|] + m.data
        + [Crc8.Crc([f.dest, f.src, f.typ, f.sq, |m.data|] + m.data)])
  {
    hide Crc8.Crc;
    var c, data := Clamped(f).Covered(), Meaning(f).data;
    assert c == [f.dest, f.src, f.typ, f.sq, |data|] + data;
    assert c[1..] == [f.src, f.typ, f.sq, |data|] + data;
  }

  /** From any state, an encoded frame for this node is delivered intact on its last word, and
      nothing else is delivered after its preamble, exactly when its address has 7 bits. */
  lemma DeliveredIntact(a: Asm, f: Frame)
    requires a.Valid() && (a.promiscuous || f.dest % 0x80 == a.myAddr || f.dest % 0x80 == 0x7F)
    ensures Run(a, Encode(f)[..|Encode(f)| - 1]).1 == AtPreamble(a).1
    ensures Run(a, Encode(f)).1 == AtPreamble(a).1 + [Meaning(f)] <==> f.dest <= 0x7F
    ensures f.dest > 0x7F ==> Run(a, Encode(f)).1 == AtPreamble(a).1
    ensures Run(a, Encode(f)).0.phase == Idle
    ensures Run(a, Encode(f)).0.crcFail == AtPreamble(a).0.crcFail + if f.dest <= 0x7F then 0 else 1
  {
    hide Run, Crc8.Crc, Encode;
    var m, d := Meaning(f), f.dest % 0x80;
    var head := [AddrWord(d), f.src, f.typ, f.sq, |m.data|];
    var rest := [f.src, f.typ, f.sq, |m.data|] + m.data;
    var crc := Crc8.Crc([f.dest] + rest);
    var a1 := AtPreamble(a).0;
    EncodeParts(f);
    assert [f.dest] + rest == [f.dest, f.src, f.typ, f.sq, |m.data|] + m.data;
    assert [d] + rest == [d, f.src, f.typ, f.sq, |m.data|] + m.data;
    Receive(a1, d, f.src, f.typ, f.sq, m.data, crc);
    RunConcat(a, [PREAMBLE], head + m.data + [crc]);
    RunConcat(a, [PREAMBLE], head + m.data);
    assert Encode(f)[..|Encode(f)| - 1] == [PREAMBLE] + (head + m.data);
    if f.dest > 0x7F {
      assert [] + [d] + rest == [d] + rest && [] + [f.dest] + rest == [f.dest] + rest;
      Crc8.DetectsByteError([], d, f.dest, rest);
    }
  }

  lemma {:induction false} SkipsData(a: Asm, ws: seq<word>)
    requires a.Valid() && a.phase == Idle && forall w :: w in ws ==> !IsAddr(w)
    ensures Run(a, ws) == (a, [])
  {
    hide Run;
    if ws == [] {
      RunNone(a);
    } else {
      SkipsData(a, ws[1..]);
      RunSilent(a, ws[0], a, ws[1..]);
      assert [ws[0]] + ws[1..] == ws;
    }
  }

  lemma RunNone(a: Asm)
    requires a.Valid()
    ensures Run(a, []) == (a, [])
  {}

  /** A frame for another node is skipped whole. */
  lemma NotForUs(a: Asm, f: Frame)
    requires a.Valid() && !(a.promiscuous || f.dest % 0x80 == a.myAddr || f.dest % 0x80 == 0x7F)
    ensures Run(a, Encode(f)) == (AtPreamble(a).0.(phase := Idle), AtPreamble(a).1)
  {
    hide Run, Feed, Crc8.Crc;
    var a1 := AtPreamble(a).0;
    var d := f.dest % 0x80;
    var ws := Encode(f)[2..];
    assert Encode(f) == [PREAMBLE] + ([AddrWord(d)] + ws);
    RunConcat(a, [PREAMBLE], [AddrWord(d)] + ws);
    RunConcat(a1, [AddrWord(d)], ws);
    FeedAddress(a1, d);
    RunOne(a1, AddrWord(d));
    SkipsData(a1.(phase := Idle), ws);
    assert AtPreamble(a).1 + ([] + []) == AtPreamble(a).1;
  }

  // ---- Streams of frames --------------------------------------------------------------

  function Wire(fs: seq<Frame>): seq<word> {
    if fs == [] then [] else Encode(fs[0]) + Wire(fs[1..])
  }

  /** What a node is to be told of a stream: what is sent to it or to all, or everything if it listens
      to everything. */
  function Addressed(a: Asm, fs: seq<Frame>): seq<Message> {
    if fs == [] then []
    else
      var f := fs[0];
      (if a.promiscuous || f.dest == a.myAddr || f.dest == 0x7F then [Meaning(f)] else []) + Addressed(a, fs[1..])
  }

  /** From any state, the frames of a stream that are for this node, and only they, are delivered
      in order; an interrupted earlier frame can only end on the first preamble. */
  lemma {:induction false} StreamFiltered(a: Asm, fs: seq<Frame>)
    requires a.Valid() && fs != []
    requires forall f :: f in fs ==> f.dest <= 0x7F
    ensures Run(a, Wire(fs)).1 == AtPreamble(a).1 + Addressed(a, fs)
    ensures Run(a, Wire(fs)).0.phase == Idle
    decreases |fs|
  {
    hide Run, Encode;
    var f, rest := fs[0], fs[1..];
    if a.ForUs(f.dest) {
      DeliveredIntact(a, f);
    } else {
      NotForUs(a, f);
    }
    var a1 := Run(a, Encode(f)).0;
    RunConcat(a, Encode(f), Wire(rest));
    if rest != [] {
      StreamFiltered(a1, rest);
      SkipsData(a1, [PREAMBLE]);
      AddressedSame(a, a1, rest);
    } else {
      RunNone(a1);
    }
  }

  lemma {:induction false} AddressedSame(a: Asm, b: Asm, fs: seq<Frame>)
    requires a.myAddr == b.myAddr && a.promiscuous == b.promiscuous
    ensures Addressed(a, fs) == Addressed(b, fs)
  {
    if fs != [] {
      AddressedSame(a, b, fs[1..]);
    }
  }

  /** From a fresh assembler: exactly the frames addressed to the node or broadcast, in order. */
  lemma StreamFromInit(a: Asm, fs: seq<Frame>)
    requires a.Valid() && a.phase == Idle
    requires forall f :: f in fs ==> f.dest <= 0x7F
    ensures Run(a, Wire(fs)).1 == Addressed(a, fs)
  {
    hide Run, Encode;
    RunNone(a);
    if fs != [] {
      StreamFiltered(a, fs);
      SkipsData(a, [PREAMBLE]);
    }
  }

  /** After any noise at all, a stream of frames is received from its first frame on. */
  lemma Resynchronises(a: Asm, noise: seq<word>, fs: seq<Frame>)
    requires a.Valid() && fs != []
    requires forall f :: f in fs ==> f.dest <= 0x7F
    ensures Run(a, noise + Wire(fs)).1 == Run(a, noise + [PREAMBLE]).1 + Addressed(a, fs)
  {
    hide Run, Wire, Addressed;
    var a1 := Run(a, noise).0;
    RunConcat(a, noise, Wire(fs));
    RunConcat(a, noise, [PREAMBLE]);
    StreamFiltered(a1, fs);
    AddressedSame(a, a1, fs);
  }

  // ---- Corrupted frames ---------------------------------------------------------------

  /** The data words of a frame: src, type, seq, len, payload and checksum. */
  function DataWords(f: Frame): (s: seq<byte>)
    ensures |s| == |Meaning(f).data| + 5
  {
    var m := Meaning(f);
    [f.src, f.typ, f.sq, |m.data|] + m.data + [Crc8.Crc([f.dest, f.src, f.typ, f.sq, |m.data|] + m.data)]
  }

  lemma CrcOfAll(x: seq<byte>, crc: byte)
    ensures Crc8.Crc(x) == crc <==> Crc8.Feed(0xFF, x + [crc]) == Crc8.Shifts(0xFF, 8)
  {
    hide *;
    Crc8.Residue(x, crc);
  }

  lemma DataParts(d: byte, f: Frame)
    requires d == f.dest
    ensures var good, n, m := DataWords(f), |DataWords(f)|, Meaning(f);
      good[n - 1] == Crc8.Crc([d] + good[..n - 1])
  {
    hide Crc8.Crc;
    var m := Meaning(f);
    var x, head := [d, f.src, f.typ, f.sq, |m.data|] + m.data, [f.src, f.typ, f.sq, |m.data|] + m.data;
    HeadJoined(d, f.src, f.typ, f.sq, |m.data|, m.data);
    InitOf(head, Crc8.Crc(x));
    assert DataWords(f) == head + [Crc8.Crc(x)];
  }

  lemma HeadJoined(d: byte, a: byte, b: byte, c: byte, e: byte, data: seq<byte>)
    ensures [d] + ([a, b, c, e] + data) == [d, a, b, c, e] + data
  {
  }

  lemma InitOf(s: seq<byte>, c: byte)
    ensures (s + [c])[..|s|] == s && (s + [c])[|s|] == c && |s + [c]| == |s| + 1
  {
  }

  lemma LastApart(d: byte, s: seq<byte>)
    requires s != []
    ensures [d] + s[..|s| - 1] + [s[|s| - 1]] == [d] + s
  {
  }

  /** The transmitted checksum is right exactly when the checksum over everything is that of a good
      frame. */
  lemma ChecksumSeen(d: byte, f: Frame, bad: seq<byte>)
    requires d == f.dest && |bad| == |DataWords(f)|
    ensures var n := |bad|;
      Crc8.Crc([d] + bad[..n - 1]) == bad[n - 1] <==> Crc8.Crc([d] + bad) == Crc8.Crc([d] + DataWords(f))
  {
    hide *;
    var n, good := |bad|, DataWords(f);
    DataParts(d, f);
    CrcOfAll([d] + bad[..n - 1], bad[n - 1]);
    CrcOfAll([d] + good[..n - 1], good[n - 1]);
    LastApart(d, bad);
    LastApart(d, good);
    Crc8.CrcEqual([d] + bad, [d] + good);
  }

  /** What becomes of any data words with an unchanged length. */
  lemma DataReceived(a: Asm, d: byte, bad: seq<byte>)
    requires a.Valid() && (a.promiscuous || d == a.myAddr || d == 0x7F) && d <= 0x7F
    requires 5 <= |bad| <= PAYLOAD_MAX + 5 && bad[3] == |bad| - 5
    ensures
      var n := |bad|;
      var ok := Crc8.Crc([d] + bad[..n - 1]) == bad[n - 1];
      var r := Run(a, [PREAMBLE, AddrWord(d)] + bad);
      && (!ok <==> r.1 == AtPreamble(a).1)
      && r.0.crcFail == AtPreamble(a).0.crcFail + if ok then 0 else 1
  {
    hide Run, Crc8.Crc;
    var n := |bad|;
    var data, crc := bad[4..n - 1], bad[n - 1];
    var head := [AddrWord(d), bad[0], bad[1], bad[2], bad[3]];
    Receive(AtPreamble(a).0, d, bad[0], bad[1], bad[2], data, crc);
    RunConcat(a, [PREAMBLE], head + data + [crc]);
    WordsParted(d, bad);
  }

  lemma WordsParted(d: byte, bad: seq<byte>)
    requires |bad| >= 5
    ensures var n := |bad|;
      && [PREAMBLE, AddrWord(d)] + bad ==
         [PREAMBLE] + ([AddrWord(d), bad[0], bad[1], bad[2], bad[3]] + bad[4..n - 1] + [bad[n - 1]])
      && [d] + bad[..n - 1] == [d, bad[0], bad[1], bad[2], bad[3]] + bad[4..n - 1]
  {
  }

  /** A frame whose data words other than len were changed is rejected, and counted, exactly when
      the change alters the checksum over all of them. */
  lemma RejectedIff(a: Asm, f: Frame, bad: seq<byte>)
    requires a.Valid() && (a.promiscuous || f.dest == a.myAddr || f.dest == 0x7F) && f.dest <= 0x7F
    requires |bad| == |DataWords(f)| && bad[3] == DataWords(f)[3]
    ensures
      var r := Run(a, [PREAMBLE, AddrWord(f.dest)] + bad);
      var rejected := Crc8.Crc([f.dest] + bad) != Crc8.Crc([f.dest] + DataWords(f));
      && (rejected <==> r.1 == AtPreamble(a).1)
      && (rejected <==> r.0.crcFail == AtPreamble(a).0.crcFail + 1)
  {
    hide Run, Crc8.Crc, AtPreamble;
    DataReceived(a, f.dest, bad);
    ChecksumSeen(f.dest, f, bad);
  }

  lemma OneReplaced(d: byte, s: seq<byte>, i: nat, b: byte)
    requires i < |s|
    ensures [d] + s[i := b] == ([d] + s[..i]) + [b] + s[i + 1..]
    ensures [d] + s == ([d] + s[..i]) + [s[i]] + s[i + 1..]
  {
  }

  /** Any change of one byte of a frame other than its address and len is detected. */
  lemma ByteErrorRejected(a: Asm, f: Frame, i: nat, b: byte)
    requires a.Valid() && (a.promiscuous || f.dest == a.myAddr || f.dest == 0x7F) && f.dest <= 0x7F
    requires i < |DataWords(f)| && i != 3 && b != DataWords(f)[i]
    ensures
      var r := Run(a, [PREAMBLE, AddrWord(f.dest)] + DataWords(f)[i := b]);
      r.1 == AtPreamble(a).1 && r.0.crcFail == AtPreamble(a).0.crcFail + 1
  {
    hide Run, AtPreamble, Crc8.Crc, DataWords, AddrWord;
    var good := DataWords(f);
    OneReplaced(f.dest, good, i, b);
    Crc8.DetectsByteError([f.dest] + good[..i], b, good[i], good[i + 1..]);
    RejectedIff(a, f, good[i := b]);
  }

  lemma TwoReplaced(d: byte, s: seq<byte>, i: nat, b: byte, b': byte)
    requires i + 1 < |s|
    ensures [d] + s[i := b][i + 1 := b'] == ([d] + s[..i]) + [b, b'] + s[i + 2..]
    ensures [d] + s == ([d] + s[..i]) + [s[i], s[i + 1]] + s[i + 2..]
  {
  }

  /** So is every burst of at most 8 bits, in the order of the checksum, that spares len. */
  lemma BurstRejected(a: Asm, f: Frame, i: nat, b: byte, b': byte, s: nat)
    requires a.Valid() && (a.promiscuous || f.dest == a.myAddr || f.dest == 0x7F) && f.dest <= 0x7F
    requires i + 1 < |DataWords(f)| && i != 3 && i + 1 != 3
    requires (b, b') != (DataWords(f)[i], DataWords(f)[i + 1])
    requires Crc8.WithinEight(Xor(b, DataWords(f)[i]), Xor(b', DataWords(f)[i + 1]), s)
    ensures
      var r := Run(a, [PREAMBLE, AddrWord(f.dest)] + DataWords(f)[i := b][i + 1 := b']);
      r.1 == AtPreamble(a).1 && r.0.crcFail == AtPreamble(a).0.crcFail + 1
  {
    hide Run, AtPreamble, Crc8.Crc, DataWords, AddrWord, Crc8.WithinEight, Xor;
    var good := DataWords(f);
    TwoReplaced(f.dest, good, i, b, b');
    Crc8.DetectsBurst([f.dest] + good[..i], b, b', good[i], good[i + 1], good[i + 2..], s);
    RejectedIff(a, f, good[i := b][i + 1 := b']);
  }
}
