/** The 9-bit frame codec of the bus: the encoder and the resynchronising assembler. */
module BusFrame {
  import opened Bytes
  import Crc8

  const PAYLOAD_MAX: byte := 240
  const BROADCAST: byte := 0x7F
  const PROMISCUOUS: byte := 0xFF
  const PREAMBLE: word := 0x0FF

  type word = x: int | 0 <= x < 0x10000

  datatype Option<T> = None | Some(value: T)

  type Payload = p: seq<byte> | |p| == 240 witness seq(240, _ => 0)

  datatype Frame = Frame(dest: byte, src: byte, typ: byte, sq: byte, len: byte, payload: Payload) {
    /** Everything the checksum covers. */
    function Covered(): seq<byte>
      requires len <= PAYLOAD_MAX
    {
      [dest, src, typ, sq, len] + payload[..len]
    }
  }

  /** What a frame means to its receiver: the payload bytes past `len` are not part of it. */
  datatype Message = Message(dest: byte, src: byte, typ: byte, sq: byte, data: seq<byte>)

  function Meaning(f: Frame): Message {
    Message(f.dest, f.src, f.typ, f.sq, f.payload[..if f.len > PAYLOAD_MAX then PAYLOAD_MAX else f.len])
  }

  function AddrWord(a: byte): word { 0x100 + a % 0x80 }

  predicate IsAddr(w: word) { (w / 0x100) % 2 == 1 }

  function Low(w: word): byte { w % 0x100 }

  // ---- Encoder ------------------------------------------------------------------------

  function Clamped(f: Frame): Frame {
    if f.len > PAYLOAD_MAX then f.(len := PAYLOAD_MAX) else f
  }

  function Encode(f: Frame): seq<word> {
    var c := Clamped(f);
    [PREAMBLE, AddrWord(f.dest)] + c.Covered()[1..] + [Crc8.Crc(c.Covered())]
  }

  method FrameCrc(f: Frame) returns (crc: byte)
    requires f.len <= PAYLOAD_MAX
    ensures crc == Crc8.Crc(f.Covered())
  {
    var head := [f.dest, f.src, f.typ, f.sq, f.len];
    var c := 0xFF;
    for i := 0 to 5
      invariant c == Crc8.Feed(0xFF, head[..i])
    {
      assert head[..i + 1][..i] == head[..i];
      c := Crc8.UpdateByte(c, head[i]);
    }
    assert head[..5] == head == head + f.payload[..0];
    for i := 0 to f.len
      invariant c == Crc8.Feed(0xFF, head + f.payload[..i])
    {
      assert (head + f.payload[..i + 1])[..5 + i] == head + f.payload[..i];
      c := Crc8.UpdateByte(c, f.payload[i]);
    }
    crc := Xor(c, 0xFF);
  }

  /** The words of a frame by position: a preamble without the ninth bit, the only word with it, which
      carries seven bits of the address, the header, at most 240 bytes of payload, the checksum. */
  lemma EncodeAt(f: Frame)
    ensures var n, t := if f.len > 240 then 240 else f.len, Encode(f);
      && |t| == 7 + n
      && t[..6] == [0x0FF, 0x100 + f.dest % 0x80, f.src, f.typ, f.sq, n]
      && (forall i :: 0 <= i < n ==> t[6 + i] == f.payload[i])
      && t[6 + n] == Crc8.Crc([f.dest, f.src, f.typ, f.sq, n] + f.payload[..n])
  {
    hide Crc8.Crc;
  }

  /** The payload words, from word 6 on. */
  method PutPayload(words: array<word>, f: Frame, len: nat)
    requires len <= PAYLOAD_MAX && words.Length >= 247
    modifies words
    ensures forall k :: 0 <= k < words.Length ==>
      words[k] == if 6 <= k < 6 + len then f.payload[k - 6] else old(words[k])
  {
    for i := 0 to len
      invariant forall k :: 0 <= k < words.Length ==>
        words[k] == if 6 <= k < 6 + i then f.payload[k - 6] else old(words[k])
    {
      words[6 + i] := f.payload[i];
    }
  }

  method EncodeInto(words: array<word>, f: Frame) returns (n: nat)
    requires words.Length >= 247
    modifies words
    ensures n <= words.Length && words[..n] == Encode(f)
    ensures words[n..] == old(words[n..])
  {
    hide Encode, Crc8.Crc;
    EncodeAt(f);
    var tmp := Clamped(f);
    assert tmp.Covered() == [f.dest, f.src, f.typ, f.sq, tmp.len] + f.payload[..tmp.len];
    var crc := FrameCrc(tmp);
    ghost var target := Encode(f);
    words[0], words[1] := PREAMBLE, AddrWord(f.dest);
    words[2], words[3], words[4], words[5] := f.src, f.typ, f.sq, tmp.len;
    PutPayload(words, f, tmp.len);
    n := 6 + tmp.len;
    words[n] := crc;
    n := n + 1;
    forall k | 0 <= k < n
      ensures words[k] == target[k]
    {
      if k < 6 {
        assert target[k] == target[..6][k];
      } else if k < 6 + tmp.len {
        assert target[6 + (k - 6)] == f.payload[k - 6];
      }
    }
    assert words[..n] == target;
  }

  // ---- Assembler ----------------------------------------------------------------------

  datatype Phase = Idle | AwaitSrc | AwaitType | AwaitSeq | AwaitLen | AwaitBody | AwaitCrc

  datatype Asm = Asm(phase: Phase, acc: Frame, idx: nat, myAddr: byte, promiscuous: bool,
                     crcFail: nat, framesOk: nat) {
    ghost predicate Valid() {
      && (phase in {AwaitBody, AwaitCrc} ==> acc.len <= PAYLOAD_MAX)
      && (phase == AwaitBody ==> idx < acc.len)
    }

    predicate ForUs(dest: byte) {
      promiscuous || dest == myAddr || dest == BROADCAST
    }
  }

  function Feed(a: Asm, w: word): (r: (Asm, Option<Frame>))
    requires a.Valid()
    ensures r.0.Valid()
  {
    var b := Low(w);
    if IsAddr(w) then
      if a.ForUs(b) then (a.(acc := a.acc.(dest := b), phase := AwaitSrc), None)
      else (a.(phase := Idle), None)
    else
      match a.phase
      case AwaitSrc => (a.(acc := a.acc.(src := b), phase := AwaitType), None)
      case AwaitType => (a.(acc := a.acc.(typ := b), phase := AwaitSeq), None)
      case AwaitSeq => (a.(acc := a.acc.(sq := b), phase := AwaitLen), None)
      case AwaitLen =>
        if b > PAYLOAD_MAX then (a.(phase := Idle), None)
        else (a.(acc := a.acc.(len := b), idx := 0, phase := if b == 0 then AwaitCrc else AwaitBody), None)
      case AwaitBody =>
        var i := a.idx + 1;
        (a.(acc := a.acc.(payload := a.acc.payload[a.idx := b]), idx := i,
            phase := if i >= a.acc.len then AwaitCrc else AwaitBody), None)
      case AwaitCrc =>
        if Crc8.Crc(a.acc.Covered()) == b
        then (a.(phase := Idle, framesOk := a.framesOk + 1), Some(a.acc))
        else (a.(phase := Idle, crcFail := a.crcFail + 1), None)
      case Idle => (a, None)
  }

  class Assembler {
    var phase: Phase
    var dest: byte
    var src: byte
    var typ: byte
    var sq: byte
    var len: byte
    const payload: array<byte>
    var idx: nat
    var myAddr: byte
    var promiscuous: bool
    var crcFail: nat
    var framesOk: nat

    function State(): Asm
      reads this, payload
      requires payload.Length == 240
    {
      Asm(phase, Frame(dest, src, typ, sq, len, payload[..]), idx, myAddr, promiscuous, crcFail, framesOk)
    }

    constructor (my: byte, promisc: bool)
      ensures payload.Length == 240 && fresh(payload)
      ensures phase == Idle && crcFail == 0 && framesOk == 0 && State().Valid()
      ensures myAddr == my && promiscuous == (promisc || my == 0xFF)
    {
      phase := Idle;
      dest, src, typ, sq, len := 0, 0, 0, 0, 0;
      payload := new byte[240];
      idx := 0;
      myAddr := my;
      promiscuous := promisc || my == PROMISCUOUS;
      crcFail, framesOk := 0, 0;
    }

    method FeedWord(w: word) returns (out: Option<Frame>)
      requires payload.Length == 240 && State().Valid()
      modifies this, payload
      ensures (State(), out) == Feed(old(State()), w)
    {
      var b := Low(w);
      out := None;
      if IsAddr(w) {
        if promiscuous || b == myAddr || b == BROADCAST {
          dest := b;
          phase := AwaitSrc;
        } else {
          phase := Idle;
        }
        return;
      }
      match phase {
        case AwaitSrc => src := b; phase := AwaitType;
        case AwaitType => typ := b; phase := AwaitSeq;
        case AwaitSeq => sq := b; phase := AwaitLen;
        case AwaitLen =>
          if b > PAYLOAD_MAX {
            phase := Idle;
          } else {
            len := b;
            idx := 0;
            phase := if b == 0 then AwaitCrc else AwaitBody;
          }
        case AwaitBody =>
          payload[idx] := b;
          idx := idx + 1;
          if idx >= len {
            phase := AwaitCrc;
          }
        case AwaitCrc =>
          var f := Frame(dest, src, typ, sq, len, payload[..]);
          var expected := FrameCrc(f);
          phase := Idle;
          if expected == b {
            out := Some(f);
            framesOk := framesOk + 1;
          } else {
            crcFail := crcFail + 1;
          }
        case Idle =>
      }
    }
  }
}
