/** What a reset makes of whatever it finds in memory, spelled out slot by slot. */
module InterlockBoot {
  import opened Dsl
  import opened DslSoundness
  import opened InterlockEval
  import opened PinClaims
  import opened Interlocks
  import opened InterlockLaws
  import opened InterlockAdmission
  import BoardPins

  predicate SaneSlot(sl: Slot) {
    && sl.state <= 2 && sl.id <= 2
    && (sl.state == 1 ==> sl.id != 0)
    && (sl.state == 1 && sl.id == 2 ==> 1 <= |sl.text| <= 127)
  }

  /** Magic, version and size in place, and nothing in it that the firmware cannot have written. */
  predicate Sane(m: Persist)
    requires |m.slots| == 2
  {
    m.stamped && SaneSlot(m.slots[0]) && SaneSlot(m.slots[1]) && (m.crashed == 0xFF || m.crashed <= 1)
  }

  /** What becomes of a slot, next to the pins that are claimed already: an armed one is poisoned after
      three resets, or if its text does not parse or its pins are not to be had; otherwise it is armed
      again, one reset older and not evaluated. All other slots stay. */
  ghost predicate Revived(before: Slot, t: Table, after: Slot) {
    if before.state != 1 then after == before
    else if before.boots >= 3 then after == before.(state := 2)
    else if before.id == 1 then after == before.(boots := before.boots + 1)
    else if Parse(before.text).Parsed? && Grantable(t, Parse(before.text).inst) then
      after == before.(boots := before.boots + 1, inst := Parse(before.text).inst)
    else after == before.(boots := before.boots + 1, state := 2)
  }

  lemma SaneIsPlausible(m: Persist)
    requires |m.slots| == FRAMEWORK
    ensures Sane(m) <==> Plausible(m)
  {
  }

  lemma CountedIs(sl: Slot)
    requires SaneSlot(sl)
    ensures var c := Counted(sl);
      && SaneSlot(c) && SlotPlausible(c) && (c.state == ARMED ==> c.boots <= MAX_BOOTS)
      && (sl.state == 1 && sl.boots < 3 ==> c == sl.(boots := sl.boots + 1))
      && (sl.state == 1 && sl.boots >= 3 ==> c == sl.(state := 2))
      && (sl.state != 1 ==> c == sl)
  {
  }

  /** Restoring one armed slot with a text. */
  lemma RestoresText(s: State, slot: nat, decl: seq<seq<Need>>)
    requires Shape(s) && slot < FRAMEWORK && |decl| == SLOTS && TableIs(s.table, decl) && decl[slot] == []
    requires SaneSlot(s.memory.slots[slot]) && s.memory.slots[slot].state == 1 && s.memory.slots[slot].id == 2
    ensures var sl, q := s.memory.slots[slot], RestoreSlot(s, slot);
      q.memory.slots[slot] ==
      if Parse(sl.text).Parsed? && Grantable(s.table, Parse(sl.text).inst) then sl.(inst := Parse(sl.text).inst)
      else sl.(state := 2)
  {
    var sl := s.memory.slots[slot];
    hide TableIs, Needs, Parse, Accepted, Fits, Claimable, AsksReserved, ClaimAll, Grantable;
    if Parse(sl.text).Parsed? {
      var inst := Parse(sl.text).inst;
      ParseSound(sl.text);
      AcceptedTf(inst);
      ClaimForSlot(s.table, decl, slot, inst);
      NeedsAreFree(s.table, decl, slot, inst);
    }
  }

  lemma Revives(m: Slot, s: State, slot: nat, decl: seq<seq<Need>>)
    requires Shape(s) && slot < FRAMEWORK && |decl| == SLOTS && TableIs(s.table, decl) && decl[slot] == []
    requires SaneSlot(m) && s.memory.slots[slot] == Counted(m)
    ensures Revived(m, s.table, RestoreSlot(s, slot).memory.slots[slot])
  {
    hide TableIs, Parse, Grantable;
    CountedIs(m);
    if Counted(m).state == 1 && m.id == 2 {
      RestoresText(s, slot, decl);
      hide RestoreSlot;
    } else {
      hide ClaimAll, Needs;
    }
  }

  predicate Unclaimed(t: Table) { forall p :: 0 <= p < 64 ==> t[p].owners == {} }

  lemma Emptied(levels: seq<nat>, m: Persist)
    requires |levels| == PINS && |m.slots| == FRAMEWORK && !Plausible(m)
    ensures var q := Restart(m, levels);
      && q.memory == Persist(true, [BlankSlot(), BlankSlot()], NO_SLOT) && q.table == FreshTable()
  {
    hide Plausible, Parse, ClaimAll, Needs;
  }

  /** A memory that the firmware cannot have left is wiped: both slots empty, no pin claimed. */
  lemma ColdStart(m: Persist, levels: seq<nat>)
    requires |m.slots| == 2 && |levels| == 64 && !Sane(m)
    ensures var q, none := Restart(m, levels), Slot(0, 0, 0, Inst("", [], [], [], Unevaluated), "");
      q.memory == Persist(true, [none, none], 0xFF) && Unclaimed(q.table)
  {
    hide Restart, Plausible, Sane;
    SaneIsPlausible(m);
    Emptied(levels, m);
  }

  /** Slot 0 is restored first, next to unclaimed pins. */
  lemma FirstRevived(m: Persist, levels: seq<nat>)
    requires |m.slots| == 2 && |levels| == 64 && Sane(m)
    ensures var b := RestoreSlot(AfterReset(m, levels), 0);
      && Revived(m.slots[0], FreshTable(), b.memory.slots[0]) && b.memory.slots[1] == Counted(m.slots[1])
      && TableIs(b.table, OnlyFirst(b.memory.slots[0])) && b.memory.crashed == m.crashed && b.memory.stamped
  {
    SaneIsPlausible(m);
    assert BootDecide(m).slots == [Counted(m.slots[0]), Counted(m.slots[1])] && BootDecide(m).crashed == m.crashed;
    var none: seq<seq<Need>> := [[], [], [], [], [], [], [], []];
    var a := AfterReset(m, levels);
    assert a.table == FreshTable() && a.memory == BootDecide(m);
    hide TableIs, RestoreSlot, SlotOk, DeclOf, BootDecide, Plausible, AfterReset, Counted, Revived, FreshTable;
    FreshTableIs();
    Revives(m.slots[0], a, 0, none);
    FirstRestore(m, levels);
    RestoreFrame(a, 0);
  }

  /** Any other memory comes back slot by slot: slot 0 next to unclaimed pins, slot 1 next to those that
      slot 0 has got back. */
  lemma RestartExactly(m: Persist, levels: seq<nat>)
    requires |m.slots| == 2 && |levels| == 64 && Sane(m)
    ensures var q, b := Restart(m, levels), RestoreSlot(AfterReset(m, levels), 0);
      && q.memory.crashed == m.crashed && q.memory.stamped
      && Unclaimed(FreshTable()) && Revived(m.slots[0], FreshTable(), q.memory.slots[0])
      && TableIs(b.table, OnlyFirst(q.memory.slots[0])) && Revived(m.slots[1], b.table, q.memory.slots[1])
  {
    assert Unclaimed(FreshTable());
    hide TableIs, RestoreSlot, DeclOf, AfterReset, Counted, Revived, Unclaimed, FreshTable, Sane, SaneSlot, Parse;
    assert SaneSlot(m.slots[1]) by {
      SecondSane(m);
    }
    FirstRevived(m, levels);
    var b := RestoreSlot(AfterReset(m, levels), 0);
    Revives(m.slots[1], b, 1, OnlyFirst(b.memory.slots[0]));
    RestoreFrame(b, 1);
  }

  lemma SecondSane(m: Persist)
    requires |m.slots| == 2 && Sane(m)
    ensures SaneSlot(m.slots[1])
  {
  }
}
