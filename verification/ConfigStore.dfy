/** The log-structured, name-keyed config store: 256 flash rows shadowed by 32 RAM slots. */
module ConfigStore {
  import opened Bytes
  import Crc8

  const ROWS := 256
  const SLOTS := 32
  const DATA_MAX: byte := 240
  const MAGIC := 0x10C0FFEE

  type Name = s: seq<byte> | |s| == 4 witness [0, 0, 0, 0]
  type Block = s: seq<byte> | |s| == 240 witness seq(240, _ => 0)

  datatype Option<T> = None | Some(value: T)

  /** One flash row; the two padding bytes are never read and are not modelled. */
  datatype Row = Row(magic: nat, sq: nat, name: Name, len: byte, crc: byte, data: Block) {
    predicate Valid() {
      magic == MAGIC && name[0] != 0xFF && len <= DATA_MAX && crc == EntryCrc(name, len, data)
    }

    function Bytes(): seq<byte>
      requires len <= DATA_MAX
    {
      data[..len]
    }
  }

  function Blank(): Block { seq(240, _ => 0xFF) }

  function Erased(): Row { Row(0xFFFFFFFF, 0xFFFFFFFF, [0xFF, 0xFF, 0xFF, 0xFF], 0xFF, 0xFF, Blank()) }

  function EntryCrc(name: Name, len: byte, data: Block): byte
    requires len <= DATA_MAX
  {
    Crc8.Crc(name + [len] + data[..len])
  }

  /** A RAM slot: the working copy of one name, and where its newest entry lies (-1: nowhere). */
  datatype Slot = Slot(used: bool, name: Name, data: Block, len: byte, sq: nat, row: int)

  datatype Store = Store(flash: seq<Row>, slots: seq<Slot>, cursor: nat) {
    ghost predicate Shaped() {
      && |flash| == ROWS && |slots| == SLOTS && cursor < ROWS
      && forall i :: 0 <= i < SLOTS ==> slots[i].len <= DATA_MAX
    }
  }

  // ---- The newest entry of a name -----------------------------------------------------

  predicate Entry(flash: seq<Row>, name: Name, r: nat) {
    r < |flash| && flash[r].Valid() && flash[r].name == name
  }

  /** The scan of the read-only reader: the first of the highest-numbered entries. */
  function Newest(flash: seq<Row>, name: Name, n: nat): (best: Option<nat>)
    requires n <= |flash|
    ensures best.Some? ==> best.value < n && Entry(flash, name, best.value)
    ensures best.Some? ==> forall r: nat :: r < n && Entry(flash, name, r) ==> flash[r].sq <= flash[best.value].sq
    ensures best.None? ==> forall r: nat :: r < n ==> !Entry(flash, name, r)
  {
    if n == 0 then None
    else
      var best := Newest(flash, name, n - 1);
      if Entry(flash, name, n - 1) && (best.None? || flash[n - 1].sq > flash[best.value].sq) then Some(n - 1)
      else best
  }

  /** The bytes a reader of the flash gets for a name. */
  function Stored(flash: seq<Row>, name: Name): Option<seq<byte>> {
    var best := Newest(flash, name, |flash|);
    if best.None? then None else Some(flash[best.value].Bytes())
  }

  // ---- Slot bookkeeping ---------------------------------------------------------------

  function FindFrom(slots: seq<Slot>, name: Name, i: nat): (s: int)
    requires i <= |slots|
    ensures -1 <= s < |slots|
    ensures s >= 0 ==> i <= s && slots[s].used && slots[s].name == name
    ensures s < 0 ==> forall k :: i <= k < |slots| && slots[k].used ==> slots[k].name != name
    decreases |slots| - i
  {
    if i == |slots| then -1
    else if slots[i].used && slots[i].name == name then i
    else FindFrom(slots, name, i + 1)
  }

  function Find(slots: seq<Slot>, name: Name): int { FindFrom(slots, name, 0) }

  function FreeFrom(slots: seq<Slot>, i: nat): (s: int)
    requires i <= |slots|
    ensures -1 <= s < |slots|
    ensures s >= 0 ==> i <= s && !slots[s].used
    ensures s < 0 ==> forall k :: i <= k < |slots| ==> slots[k].used
    decreases |slots| - i
  {
    if i == |slots| then -1 else if !slots[i].used then i else FreeFrom(slots, i + 1)
  }

  function Bound(s: Slot, name: Name): Slot {
    s.(used := true, name := name, len := 0, sq := 0, row := -1)
  }

  /** The slot of a name, allocating a free one if there is one. */
  function Alloc(slots: seq<Slot>, name: Name): (r: (seq<Slot>, int))
    ensures |r.0| == |slots| && -1 <= r.1 < |slots|
  {
    var s := Find(slots, name);
    if s >= 0 then (slots, s)
    else
      var f := FreeFrom(slots, 0);
      if f < 0 then (slots, -1) else (slots[f := Bound(slots[f], name)], f)
  }

  function Unbound(s: Slot): Slot {
    s.(used := false, sq := 0, len := 0, row := -1)
  }

  function LoadRow(slots: seq<Slot>, flash: seq<Row>, r: nat): (res: seq<Slot>)
    requires r < |flash|
    ensures |res| == |slots|
  {
    var e := flash[r];
    if !e.Valid() then slots
    else
      var (bound, s) := Alloc(slots, e.name);
      if s >= 0 && e.sq > bound[s].sq
      then bound[s := bound[s].(sq := e.sq, len := e.len, row := r,
                                data := e.data[..e.len] + bound[s].data[e.len..])]
      else bound
  }

  function LoadRows(slots: seq<Slot>, flash: seq<Row>, n: nat): (res: seq<Slot>)
    requires n <= |flash|
    ensures |res| == |slots|
  {
    if n == 0 then seq(|slots|, i requires 0 <= i < |slots| => Unbound(slots[i]))
    else LoadRow(LoadRows(slots, flash, n - 1), flash, n - 1)
  }

  /** The boot scan. */
  function Load(st: Store): Store {
    Store(st.flash, LoadRows(st.slots, st.flash, |st.flash|), 0)
  }

  // ---- Commit -------------------------------------------------------------------------

  predicate Live(slots: seq<Slot>, r: nat) {
    exists i :: 0 <= i < |slots| && slots[i].used && slots[i].row == r
  }

  function PickFrom(st: Store, n: nat): Option<nat>
    requires n <= ROWS
    decreases ROWS - n
  {
    if n == ROWS then None
    else if !Live(st.slots, (st.cursor + n) % ROWS) then Some((st.cursor + n) % ROWS)
    else PickFrom(st, n + 1)
  }

  function Pick(st: Store): Option<nat> { PickFrom(st, 0) }

  /** The entry a commit of a slot writes. */
  function NewEntry(s: Slot): Row
    requires s.len <= DATA_MAX
  {
    Row(MAGIC, s.sq + 1, s.name, s.len, EntryCrc(s.name, s.len, s.data), s.data[..s.len] + Blank()[s.len..])
  }

  /** How many data bytes the first p of the four 64-byte pages hold: the header takes 16. */
  function PageEnd(p: nat): nat
    requires 1 <= p <= 4
  {
    64 * p - 16
  }

  /** A row after its erase and the programming of its first p pages. */
  function Programmed(e: Row, p: nat): Row
    requires p <= 4
  {
    if p == 0 then Erased() else e.(data := e.data[..PageEnd(p)] + Blank()[PageEnd(p)..])
  }

  /** Slot `s` already holds what its newest entry says, so a commit writes nothing. */
  predicate Unchanged(flash: seq<Row>, s: Slot) {
    && 0 <= s.row < |flash|
    && flash[s.row].len == s.len <= DATA_MAX
    && flash[s.row].Bytes() == s.data[..s.len]
  }

  predicate Acceptable(e: Row, want: Row) {
    e.Valid() && e.sq == want.sq && e.name == want.name
  }

  datatype Committed = Committed(store: Store, ok: bool, erased: Option<nat>)

  /** A commit that may lose power: `steps` is how many of its five flash operations (the erase
      and four page writes) complete. With steps >= 5 it runs to its end. */
  function Commit(st: Store, slot: nat, steps: nat): Committed
    requires st.Shaped()
  {
    if slot >= SLOTS || !st.slots[slot].used then Committed(st, false, None)
    else
      var s := st.slots[slot];
      if Unchanged(st.flash, s) then Committed(st, true, None)
      else
        var pick := Pick(st);
        if pick.None? || pick.value >= ROWS then Committed(st, false, None)
        else
          var p := pick.value;
          var moved := st.(cursor := (p + 1) % ROWS);
          if steps == 0 then Committed(moved, false, None)
          else
            var e := NewEntry(s);
            var row := Programmed(e, if steps >= 5 then 4 else steps - 1);
            var written := moved.(flash := st.flash[p := row]);
            if steps < 5 || !Acceptable(row, e) then Committed(written, false, Some(p))
            else Committed(written.(slots := st.slots[slot := s.(sq := e.sq, row := p)]), true, Some(p))
  }
}
