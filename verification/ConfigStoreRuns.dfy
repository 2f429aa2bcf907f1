/** Whole runs of the config store: the invariant and the stored contents over any sequence of
    edits, commits, power cuts, reloads and formats, and how commits spread the erases. */
module ConfigStoreRuns {
  import opened Bytes
  import Crc8
  import opened ConfigStore
  import opened ConfigStoreLaws

  datatype Op =
    | Open(name: Name)
    | Edit(slot: nat, data: Block, len: byte)
    | Save(slot: nat)
    | Cut(slot: nat, steps: nat)   // a commit that loses power, and the boot after it
    | Reload
    | Format

  function Blanked(flash: seq<Row>): (res: seq<Row>)
    ensures |res| == |flash|
    ensures forall i :: 0 <= i < |flash| ==> res[i] == if flash[i].magic == 0xFFFFFFFF then flash[i] else Erased()
  {
    seq(|flash|, i requires 0 <= i < |flash| => if flash[i].magic == 0xFFFFFFFF then flash[i] else Erased())
  }

  function Edited(st: Store, slot: nat, data: Block, len: byte): Store {
    if slot < |st.slots| && len <= DATA_MAX
    then st.(slots := st.slots[slot := st.slots[slot].(data := data, len := len)])
    else st
  }

  function Step(st: Store, op: Op): Store
    requires st.Shaped()
  {
    match op
    case Open(name) => st.(slots := Alloc(st.slots, name).0)
    case Edit(slot, data, len) => Edited(st, slot, data, len)
    case Save(slot) => Commit(st, slot, 5).store
    case Cut(slot, steps) => Load(Commit(st, slot, steps).store)
    case Reload => Load(st)
    case Format => Load(st.(flash := Blanked(st.flash)))
  }

  /** What is stored for a name after an operation, given what was stored before it. */
  ghost function Effect(st: Store, op: Op, name: Name, before: Option<seq<byte>>): Option<seq<byte>>
    requires st.Shaped()
  {
    match op
    case Save(slot) =>
      if CanCommit(st, slot) && st.slots[slot].name == name && name[0] != 0xFF
      then Some(st.slots[slot].data[..st.slots[slot].len]) else before
    case Cut(slot, steps) =>
      if CanCommit(st, slot) && st.slots[slot].name == name && !Unchanged(st.flash, st.slots[slot])
         && steps > 0 && LeftBehind(st.slots[slot], steps).Valid()
      then Some(LeftBehind(st.slots[slot], steps).Bytes()) else before
    case Format => None
    case _ => before
  }

  lemma OpenKeeps(st: Store, name: Name)
    requires Inv(st)
    ensures Inv(Step(st, Open(name)))
  {
    hide EntryCrc;
    var (slots, s) := Alloc(st.slots, name);
    if Find(st.slots, name) < 0 && s >= 0 {
      forall n | Holds(st.slots, n)
        ensures Holds(slots, n)
      {
        var i :| 0 <= i < SLOTS && st.slots[i].used && st.slots[i].name == n;
        assert slots[i].used && slots[i].name == n;
      }
      forall q: nat
        ensures !Entry(st.flash, name, q)
      {
        assert Entry(st.flash, name, q) ==> Holds(st.slots, name);
      }
    }
  }

  lemma EditKeeps(st: Store, slot: nat, data: Block, len: byte)
    requires Inv(st)
    ensures Inv(Edited(st, slot, data, len))
  {
    hide EntryCrc;
    var slots := Edited(st, slot, data, len).slots;
    forall i | 0 <= i < SLOTS && slots[i].used
      ensures Tracks(st.flash, slots[i])
    {
      assert Tracks(st.flash, st.slots[i]);
    }
    forall n | Holds(st.slots, n)
      ensures Holds(slots, n)
    {
      var i :| 0 <= i < SLOTS && st.slots[i].used && st.slots[i].name == n;
      assert slots[i].used && slots[i].name == n;
    }
  }

  lemma LoadKeeps(st: Store, slots: seq<Slot>)
    requires st.Shaped() && FlashOk(st.flash) && |slots| == SLOTS
    requires forall r: nat :: r < ROWS && st.flash[r].Valid() ==> Holds(slots, st.flash[r].name)
    ensures Inv(Load(st)) && ReadersAgree(Load(st))
  {
    hide EntryCrc, Inv, ReadersAgree, Load;
    NamesCount(slots);
    LoadRestores(st, Names(slots));
  }

  lemma StoredNothing(flash: seq<Row>, name: Name)
    requires forall r :: 0 <= r < |flash| ==> !flash[r].Valid()
    ensures Stored(flash, name).None?
  {
  }

  /** Every operation keeps the invariant and has exactly its stated effect on what is stored. */
  lemma StepLaw(st: Store, op: Op)
    requires Inv(st)
    ensures Inv(Step(st, op))
    ensures forall name :: Stored(Step(st, op).flash, name) == Effect(st, op, name, Stored(st.flash, name))
  {
    assert st.Shaped();
    hide EntryCrc, Stored, Inv, ReadersAgree, LoadRows, Commit, Alloc;
    match op {
      case Open(name) => OpenKeeps(st, name);
      case Edit(slot, data, len) => EditKeeps(st, slot, data, len);
      case Save(slot) =>
        CommitLaw(st, slot, 5);
        if CanCommit(st, slot) {
          SavedOutcome(st, slot);
        }
      case Cut(slot, steps) =>
        CommitLaw(st, slot, steps);
        LoadKeeps(Commit(st, slot, steps).store, st.slots);
      case Reload =>
        InvParts(st);
        LoadKeeps(st, st.slots);
      case Format =>
        var blank := st.(flash := Blanked(st.flash));
        BlankedInvalid(st.flash);
        LoadKeeps(blank, st.slots);
        forall name: Name
          ensures Stored(blank.flash, name).None?
        {
          StoredNothing(blank.flash, name);
        }
    }
  }

  lemma InvParts(st: Store)
    requires Inv(st)
    ensures FlashOk(st.flash)
    ensures forall r: nat :: r < ROWS && st.flash[r].Valid() ==> Holds(st.slots, st.flash[r].name)
  {
  }

  lemma BlankedInvalid(flash: seq<Row>)
    ensures forall r :: 0 <= r < |flash| ==> !Blanked(flash)[r].Valid()
  {
    hide EntryCrc;
  }

  lemma SavedOutcome(st: Store, slot: nat)
    requires Inv(st) && CanCommit(st, slot)
    ensures
      var s := st.slots[slot];
      Outcome(st, s, 5) == if s.name[0] != 0xFF then Some(s.data[..s.len]) else Stored(st.flash, s.name)
  {
    hide EntryCrc, Stored, NewEntry;
    var s := st.slots[slot];
    WholeRow(s);
    if Unchanged(st.flash, s) {
      assert Tracks(st.flash, s);
      LatestIsStored(st.flash, s.name);
    }
  }

  // ---- Runs ---------------------------------------------------------------------------

  /** Any run keeps the invariant. */
  ghost function Run(st: Store, ops: seq<Op>): (end: Store)
    requires Inv(st)
    ensures Inv(end)
    decreases |ops|
  {
    if ops == [] then st
    else
      var before := Run(st, ops[..|ops| - 1]);
      StepLaw(before, ops[|ops| - 1]);
      Step(before, ops[|ops| - 1])
  }

  /** What a name should read as: the effects of the run's operations in order, starting from what
      was stored at its beginning and never looking at the flash again. */
  ghost function History(st: Store, ops: seq<Op>, name: Name): Option<seq<byte>>
    requires Inv(st)
    decreases |ops|
  {
    if ops == [] then Stored(st.flash, name)
    else
      var init := ops[..|ops| - 1];
      Effect(Run(st, init), ops[|ops| - 1], name, History(st, init, name))
  }

  /** Over any run with any power cuts, every name reads as what its last effective commit wrote,
      by the boot shadow of the next reboot and by the read-only scan alike. */
  lemma {:induction false} RunStored(st: Store, ops: seq<Op>, name: Name)
    requires Inv(st)
    ensures Stored(Run(st, ops).flash, name) == History(st, ops, name)
    ensures Agree(Load(Run(st, ops)), name)
    decreases |ops|
  {
    hide EntryCrc, Stored, Step, Inv, Effect, Load;
    var end := Run(st, ops);
    if ops != [] {
      var init := ops[..|ops| - 1];
      RunStored(st, init, name);
      StepLaw(Run(st, init), ops[|ops| - 1]);
    }
    InvParts(end);
    InvShaped(end);
    LoadKeeps(end, end.slots);
  }

  lemma InvShaped(st: Store)
    requires Inv(st)
    ensures st.Shaped()
  {
  }

  /** A formatted store satisfies the invariant. */
  lemma FormattedInv(st: Store)
    requires st.Shaped() && forall r :: 0 <= r < |st.flash| ==> !st.flash[r].Valid()
    ensures Inv(Load(st))
  {
    hide EntryCrc, Inv, ReadersAgree;
    LoadRestores(st, {});
  }

  // ---- Opening, and commits that need not write -----------------------------------------

  /** A name that has a slot keeps it. Any other gets a free slot, as an empty file, and no other slot
      changes; without a free slot nothing does. */
  lemma OpenLaw(st: Store, name: Name)
    requires st.Shaped()
    ensures var (slots, i) := Alloc(st.slots, name);
      && (Holds(st.slots, name) ==> slots == st.slots && 0 <= i && slots[i].used && slots[i].name == name)
      && (!Holds(st.slots, name) && (forall k :: 0 <= k < |st.slots| ==> st.slots[k].used) ==>
            slots == st.slots && i == -1)
      && (!Holds(st.slots, name) && !(forall k :: 0 <= k < |st.slots| ==> st.slots[k].used) ==>
            && 0 <= i && !st.slots[i].used && slots == st.slots[i := slots[i]]
            && slots[i].used && slots[i].name == name && slots[i].len == 0)
  {
    if !Holds(st.slots, name) {
      assert Find(st.slots, name) < 0;
    }
  }

  /** A commit erases a row if and only if what is stored for its name is not what the slot holds; if it
      is, the commit succeeds at once. */
  lemma WritesIfChanged(st: Store, slot: nat, steps: nat)
    requires Inv(st) && CanCommit(st, slot) && steps > 0
    ensures var s, c := st.slots[slot], Commit(st, slot, steps);
      && (c.erased.Some? <==> Stored(st.flash, s.name) != Some(s.data[..s.len]))
      && (c.erased.None? ==> c.ok && c.store == st)
  {
    hide EntryCrc, Pick, Commit, Stored, LeftBehind;
    var s := st.slots[slot];
    assert Tracks(st.flash, s);
    LatestIsStored(st.flash, s.name);
    if 0 <= s.row < |st.flash| && st.flash[s.row].Bytes() == s.data[..s.len] {
      assert |st.flash[s.row].Bytes()| == st.flash[s.row].len && |s.data[..s.len]| == s.len;
    }
    if Writes(st, slot) {
      CommitWrites(st, slot, steps);
    } else {
      CommitSkips(st, slot, steps);
    }
  }

  // ---- Files short enough to be atomic under any cut -----------------------------------

  /** Files of at most 49 bytes reach at most one byte past the first page, and a checksum cannot
      miss one changed byte: a cut leaves them old or new, never mixed. */
  lemma ShortFilesAtomic(st: Store, slot: nat, steps: nat)
    requires Inv(st) && CanCommit(st, slot) && st.slots[slot].len <= 49
    ensures !Mixed(st, slot, steps)
  {
    hide Inv, Stored, EntryCrc;
    if 2 <= steps <= 4 {
      TailOfOneByte(st.slots[slot], steps - 1);
    }
  }

  lemma TailOfOneByte(s: Slot, pages: nat)
    requires s.len <= DATA_MAX && 1 <= pages <= 3 && s.len <= PageEnd(pages) + 1
    ensures !TornPasses(s, pages)
  {
    var torn, n, k := Programmed(NewEntry(s), pages), s.len, PageEnd(pages);
    if n <= k {
      assert torn.Bytes() == s.data[..n];
    } else {
      var pre := s.name + [n] + s.data[..k];
      assert torn.data[..n] == s.data[..k] + [0xFF];
      assert s.data[..n] == s.data[..k] + [s.data[k]];
      assert s.name + [n] + torn.data[..n] == pre + [0xFF] + [];
      assert s.name + [n] + s.data[..n] == pre + [s.data[k]] + [];
      if s.data[k] != 0xFF {
        Crc8.DetectsByteError(pre, 0xFF, s.data[k], []);
      }
    }
  }

  /** From 50 bytes on that fails: whatever the name and the first 48 bytes are, there are two more
      for which the row torn after its first page passes its check, both of them read as erased. */
  lemma TornRowCanPass(s: Slot)
    requires s.name[0] != 0xFF && s.len == 50 && s.data[48] == 0xFE && s.data[49] == 0xD0
    ensures TornPasses(s, 1)
  {
    var torn := Programmed(NewEntry(s), 1);
    var pre := s.name + [50] + s.data[..48];
    assert torn.data[..50] == s.data[..48] + [0xFF, 0xFF];
    assert s.data[..50] == s.data[..48] + [0xFE, 0xD0];
    assert s.name + [50] + torn.data[..50] == pre + [0xFF, 0xFF] + [];
    assert s.name + [50] + s.data[..50] == pre + [0xFE, 0xD0] + [];
    assert torn.data[..50][49] != s.data[..50][49];
    Crc8.CrcOfTwoByteError(pre, 0xFF, 0xFF, 0xFE, 0xD0, []);
    OneBitImage();
  }

  /** Such a file, committed for the first time and cut after one page, reads back as neither. */
  lemma CutCanMix(st: Store, slot: nat)
    requires Inv(st) && CanCommit(st, slot) && st.slots[slot].row == -1
    requires st.slots[slot].name[0] != 0xFF && st.slots[slot].len == 50
    requires st.slots[slot].data[48] == 0xFE && st.slots[slot].data[49] == 0xD0
    ensures Mixed(st, slot, 2)
  {
    TornRowCanPass(st.slots[slot]);
    assert Tracks(st.flash, st.slots[slot]);
    LatestIsStored(st.flash, st.slots[slot].name);
  }

  lemma OneBitImage()
    ensures Xor(0xFF, 0xFE) == 1 && Xor(0xFF, 0xD0) == 0x2F
    ensures Crc8.Shifts(1, 8) == 0x2F
  {
    hide XorNat;
    XorSelf(127);
    XorStep(127, 127, 1, 0);
    XorSelf(3);
    XorStep(3, 3, 1, 0);
    XorStep(7, 6, 1, 1);
    XorStep(15, 13, 1, 0);
    XorStep(31, 26, 1, 0);
    XorStep(63, 52, 1, 0);
    XorStep(127, 104, 1, 0);
    Crc8.PlainShifts(1, 7, 1);
    assert Crc8.Doubled(1, 7) == 0x80;
    XorSelf(0x2F);
    assert Crc8.Shift(0x80) == 0x2F;
  }
}
