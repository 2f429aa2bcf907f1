/** The config store as it runs: flash rows and RAM slots updated in place, proved against the
    functions of ConfigStore. */
module ConfigStoreDevice {
  import opened Bytes
  import Crc8
  import opened ConfigStore

  /** The running sum over the name, then the length, then the data, inverted at the end. */
  method EntryChecksum(name: Name, len: byte, data: Block) returns (crc: byte)
    requires len <= DATA_MAX
    ensures crc == EntryCrc(name, len, data)
  {
    hide Crc8.Update, Xor, XorNat;
    var c: byte := 0xFF;
    for i := 0 to |name|
      invariant c == Crc8.Feed(0xFF, name[..i])
    {
      assert name[..i + 1][..i] == name[..i];
      c := Crc8.UpdateByte(c, name[i]);
    }
    assert name[..|name|] == name == (name + [len])[..|name|];
    c := Crc8.UpdateByte(c, len);
    ghost var head := name + [len];
    assert head == head + data[..0];
    for i := 0 to len
      invariant c == Crc8.Feed(0xFF, head + data[..i])
    {
      assert (head + data[..i + 1])[..|head| + i] == head + data[..i];
      c := Crc8.UpdateByte(c, data[i]);
    }
    crc := Xor(c, 0xFF);
  }

  method RowValid(e: Row) returns (ok: bool)
    ensures ok == e.Valid()
  {
    ok := false;
    if e.magic == MAGIC && e.name[0] != 0xFF && e.len <= DATA_MAX {
      var crc := EntryChecksum(e.name, e.len, e.data);
      ok := crc == e.crc;
    }
  }

  datatype LoadResult = Absent | TooSmall | Loaded(data: seq<byte>)

  /** The read-only reader of the same format: the newest entry of a name, if it fits. */
  method ReadFile(flash: array<Row>, name: Name, cap: nat) returns (r: LoadResult)
    ensures r == match Stored(flash[..], name)
                 case None => Absent
                 case Some(data) => if |data| > cap then TooSmall else Loaded(data)
  {
    hide EntryCrc;
    var best: Option<nat> := None;
    for i := 0 to flash.Length
      invariant best == Newest(flash[..], name, i)
    {
      var valid := RowValid(flash[i]);
      if valid && flash[i].name == name && (best.None? || flash[i].sq > flash[best.value].sq) {
        best := Some(i);
      }
    }
    if best.None? {
      r := Absent;
    } else if flash[best.value].len > cap {
      r := TooSmall;
    } else {
      r := Loaded(flash[best.value].data[..flash[best.value].len]);
    }
  }

  class Device {
    const flash: array<Row>
    const slots: array<Slot>
    var cursor: nat

    ghost predicate Valid()
      reads this, flash, slots
    {
      flash.Length == ROWS && slots.Length == SLOTS && State().Shaped()
    }

    ghost function State(): Store
      reads this, flash, slots
    {
      Store(flash[..], slots[..], cursor)
    }

    method FindSlot(name: Name) returns (s: int)
      ensures s == Find(slots[..], name)
    {
      var i := 0;
      while i < slots.Length
        invariant i <= slots.Length
        invariant FindFrom(slots[..], name, i) == Find(slots[..], name)
      {
        if slots[i].used && slots[i].name == name {
          return i;
        }
        i := i + 1;
      }
      s := -1;
    }

    method AllocSlot(name: Name) returns (s: int)
      modifies slots
      ensures (slots[..], s) == Alloc(old(slots[..]), name)
    {
      s := FindSlot(name);
      if s >= 0 {
        return;
      }
      var i := 0;
      while i < slots.Length
        invariant i <= slots.Length
        invariant slots[..] == old(slots[..])
        invariant FreeFrom(slots[..], i) == FreeFrom(slots[..], 0)
      {
        if !slots[i].used {
          slots[i] := slots[i].(used := true, name := name, len := 0, sq := 0, row := -1);
          return i;
        }
        i := i + 1;
      }
    }

    method LoadOneRow(r: nat)
      requires flash.Length == ROWS && r < ROWS
      modifies slots
      ensures slots[..] == LoadRow(old(slots[..]), flash[..], r)
    {
      hide EntryCrc, Alloc;
      var e := flash[r];
      var valid := RowValid(e);
      if valid {
        var s := AllocSlot(e.name);
        if s >= 0 && e.sq > slots[s].sq {
          slots[s] := slots[s].(sq := e.sq, len := e.len, row := r,
                                data := e.data[..e.len] + slots[s].data[e.len..]);
        }
      }
    }

    /** The boot scan. */
    method LoadAll()
      requires flash.Length == ROWS
      modifies this, slots
      ensures State() == Load(old(State()))
    {
      for i := 0 to slots.Length
        invariant forall k :: 0 <= k < i ==> slots[k] == Unbound(old(slots[k]))
        invariant forall k :: i <= k < slots.Length ==> slots[k] == old(slots[k])
      {
        slots[i] := slots[i].(used := false, sq := 0, len := 0, row := -1);
      }
      assert slots[..] == LoadRows(old(slots[..]), flash[..], 0);
      for r := 0 to ROWS
        invariant slots[..] == LoadRows(old(slots[..]), flash[..], r)
      {
        LoadOneRow(r);
      }
      cursor := 0;
    }

    method RowLive(r: nat) returns (live: bool)
      ensures live == Live(slots[..], r)
    {
      for i := 0 to slots.Length
        invariant !exists k :: 0 <= k < i && slots[k].used && slots[k].row == r
      {
        if slots[i].used && slots[i].row == r {
          assert slots[..][i].used && slots[..][i].row == r;
          return true;
        }
      }
      return false;
    }

    method PickRow() returns (p: Option<nat>)
      requires Valid()
      ensures p == Pick(State())
    {
      hide Live;
      var n := 0;
      while n < ROWS
        invariant n <= ROWS
        invariant PickFrom(State(), n) == Pick(State())
      {
        var rr := (cursor + n) % ROWS;
        var live := RowLive(rr);
        if !live {
          return Some(rr);
        }
        n := n + 1;
      }
      p := None;
    }

    method ProgramPage(p: nat, e: Row, page: nat)
      requires flash.Length == ROWS && p < ROWS && page < 4
      requires flash[p] == Programmed(e, page)
      modifies flash
      ensures flash[..] == old(flash[..])[p := Programmed(e, page + 1)]
    {
      var row := flash[p];
      var from := if page == 0 then 0 else 64 * page - 16;
      var to := 64 * (page + 1) - 16;
      var data := row.data[..from] + e.data[from..to] + row.data[to..];
      assert data == e.data[..to] + Blank()[to..];
      flash[p] := if page == 0 then e.(data := data) else row.(data := data);
    }

    /** Commits a slot. Power is lost after `steps` flash operations (never, when steps >= 5); the
        RAM state after a loss of power means nothing until the next LoadAll. */
    method CommitSlot(slot: nat, steps: nat) returns (ok: bool, ghost erased: Option<nat>)
      requires Valid()
      modifies this, flash, slots
      ensures Committed(State(), ok, erased) == Commit(old(State()), slot, steps)
    {
      hide EntryCrc, Pick, Row.Valid;
      ok, erased := false, None;
      if slot >= SLOTS || !slots[slot].used {
        return;
      }
      var s := slots[slot];
      if 0 <= s.row < ROWS {
        var cur := flash[s.row];
        if cur.len == s.len && cur.data[..s.len] == s.data[..s.len] {
          ok := true;
          return;
        }
      }
      var picked := PickRow();
      if picked.None? || picked.value >= ROWS {
        return;
      }
      var p := picked.value;
      cursor := (p + 1) % ROWS;
      var crc := EntryChecksum(s.name, s.len, s.data);
      var e := Row(MAGIC, s.sq + 1, s.name, s.len, crc, s.data[..s.len] + Blank()[s.len..]);
      if steps == 0 {
        return;
      }
      flash[p] := Erased();
      erased := Some(p);
      var page := 0;
      while page < 4 && page + 1 < steps
        invariant page <= 4 && page + 1 <= steps
        invariant flash[..] == old(flash[..])[p := Programmed(e, page)]
        invariant slots[..] == old(slots[..]) && cursor == (p + 1) % ROWS
      {
        ProgramPage(p, e, page);
        page := page + 1;
      }
      if page < 4 {
        return;
      }
      var valid := RowValid(flash[p]);
      if valid && flash[p].sq == e.sq && flash[p].name == e.name {
        slots[slot] := s.(sq := e.sq, row := p);
        ok := true;
      }
    }
  }
}
