/** What every reachable state of the interlock framework satisfies, and what a warm reset restores. */
module InterlockLaws {
  import opened Dsl
  import opened DslSoundness
  import opened InterlockEval
  import opened PinClaims
  import opened Interlocks
  import BoardPins

  // ---- The invariant ------------------------------------------------------------------

  /** An armed DSL slot holds the parse of its own text, and its pins may be claimed at all. */
  ghost predicate SlotOk(sl: Slot) {
    && SlotPlausible(sl)
    && (sl.state == ARMED ==> sl.boots <= MAX_BOOTS)
    && (sl.state == ARMED && sl.id == ID_DSL ==>
          && Parse(sl.text).Parsed? && sl.inst.(tf := Unevaluated) == Parse(sl.text).inst
          && Claimable(Needs(sl.inst)))
  }

  ghost predicate Inv(s: State) {
    && Shape(s) && s.memory.stamped && (s.memory.crashed == NO_SLOT || s.memory.crashed < FRAMEWORK)
    && SlotOk(s.memory.slots[0]) && SlotOk(s.memory.slots[1])
    && RuntimeOk(s.run[0]) && RuntimeOk(s.run[1])
    && TableIs(s.table, Declared(s))
  }

  // ---- What an accepted instance asks for ---------------------------------------------

  lemma {:induction false} InputNeedSource(xs: seq<Input>, i: nat) returns (j: nat)
    requires i < |InputNeeds(xs)|
    ensures j < |xs| && xs[j].mode != Virtual && InputNeeds(xs)[i] == NeedOf(xs[j])
    decreases |xs|
  {
    if xs[0].mode == Virtual {
      j := InputNeedSource(xs[1..], i);
      j := j + 1;
    } else if i == 0 {
      j := 0;
    } else {
      j := InputNeedSource(xs[1..], i - 1);
      j := j + 1;
    }
  }

  lemma {:induction false} InputNeedsDistinct(xs: seq<Input>)
    requires forall i, j :: 0 <= i < j < |xs| ==> xs[i].phys != xs[j].phys
    ensures DistinctPins(InputNeeds(xs))
    decreases |xs|
  {
    hide NeedOf;
    if xs != [] {
      InputNeedsDistinct(xs[1..]);
      var rest := InputNeeds(xs[1..]);
      forall i | 0 <= i < |rest|
        ensures rest[i].phys != xs[0].phys
      {
        var j := InputNeedSource(xs[1..], i);
        assert xs[1..][j] == xs[j + 1];
      }
    }
  }

  lemma NeedsDistinct(inst: Inst)
    requires PinsDistinct(inst)
    ensures DistinctPins(Needs(inst))
  {
    hide NeedOf;
    var a, b := InputNeeds(inst.inputs), OutputNeeds(inst.outputs);
    InputNeedsDistinct(inst.inputs);
    forall i, j | 0 <= i < |a| && 0 <= j < |b|
      ensures a[i].phys != b[j].phys
    {
      var k := InputNeedSource(inst.inputs, i);
    }
    hide InputNeeds, OutputNeeds;
    assert Needs(inst) == a + b;
  }

  lemma InputNeedStatic(x: Input)
    requires InputOk(x) && x.mode != Virtual
    ensures NeedOf(x).phys < PINS && StaticRule(NeedOf(x)) == BoardRule(x.phys) && BoardPins.OnBoard(x.phys)
  {
    hide BoardRule, BoardPins.FindPin, BoardPins.OnBoard;
  }

  /** Whether a pin the instance asks for is one of the two reserved ones. */
  ghost predicate AsksReserved(needs: seq<Need>) {
    exists i :: 0 <= i < |needs| && BoardRule(needs[i].phys) == Reserved
  }

  /** Everything a parsed instance asks for is on the board; only a reserved pin is refused out of
      hand. */
  lemma NeedsClaimable(inst: Inst)
    requires Accepted(inst)
    ensures DistinctPins(Needs(inst))
    ensures forall i :: 0 <= i < |Needs(inst)| ==> Needs(inst)[i].phys < PINS
    ensures Claimable(Needs(inst)) <==> !AsksReserved(Needs(inst))
  {
    hide BoardRule, NeedOf, InputOk, OutputOk, StaticRule, InputNeeds, OutputNeeds;
    NeedsDistinct(inst);
    var a, b := InputNeeds(inst.inputs), OutputNeeds(inst.outputs);
    var n := Needs(inst);
    forall i | 0 <= i < |n|
      ensures n[i].phys < PINS && StaticRule(n[i]) == BoardRule(n[i].phys) && BoardPins.OnBoard(n[i].phys)
    {
      if i < |a| {
        var j := InputNeedSource(inst.inputs, i);
        InputNeedStatic(inst.inputs[j]);
      } else {
        OutputNeedStatic(inst.outputs[i - |a|]);
      }
    }
    forall i | 0 <= i < |n|
      ensures BoardRule(n[i].phys) == ClaimOk || BoardRule(n[i].phys) == Reserved
    {
      BoardRuleCases(n[i].phys);
    }
  }

  lemma BoardRuleCases(p: nat)
    requires BoardPins.OnBoard(p)
    ensures BoardRule(p) == ClaimOk || BoardRule(p) == Reserved
  {
    hide BoardPins.FindPin, BoardPins.OnBoard;
    BoardPins.OnBoardFinds(p);
  }

  lemma OutputNeedStatic(o: Output)
    requires OutputOk(o) && o.okValue != o.errValue
    ensures var n := NeedOut(o.phys, o.okValue, o.errValue);
      n.phys < PINS && StaticRule(n) == BoardRule(o.phys) && BoardPins.OnBoard(o.phys)
  {
    hide BoardRule, BoardPins.FindPin, BoardPins.OnBoard;
  }

  lemma NeedsIgnoreTf(inst: Inst, tf: Tf)
    ensures Needs(inst.(tf := tf)) == Needs(inst)
  {
  }

  lemma DeclaredPut(s: State, slot: nat, sl: Slot)
    requires Shape(s) && slot < FRAMEWORK
    ensures Declared(PutSlot(s, slot, sl)) == Declared(s)[slot := DeclOf(sl)]
    ensures Declared(s)[slot] == DeclOf(s.memory.slots[slot])
  {
    hide DeclOf;
  }

  /** What the slots of a state in order have declared can be claimed next to each other. */
  lemma DeclaredFits(s: State, slot: nat)
    requires Inv(s) && slot < FRAMEWORK
    ensures DistinctPins(DeclOf(s.memory.slots[slot])) && Claimable(DeclOf(s.memory.slots[slot]))
    ensures Fits(DeclOf(s.memory.slots[slot]), slot, Declared(s))
  {
    hide TableIs, Needs, Parse, Accepted;
    var sl := s.memory.slots[slot];
    DeclaredPut(s, slot, sl);
    if sl.state == ARMED && sl.id == ID_DSL {
      ParseSound(sl.text);
      NeedsIgnoreTf(sl.inst, Unevaluated);
      NeedsClaimable(Parse(sl.text).inst);
    }
    hide SlotOk, Fits, Declared, PutSlot;
    JointlyCompatible(s.table, Declared(s), slot);
  }

  // ---- Arming and disarming -----------------------------------------------------------

  /** What a text must satisfy for a slot to accept it. */
  ghost predicate Admissible(s: State, slot: nat, text: string)
    requires Shape(s)
  {
    && slot < FRAMEWORK && text != "" && |text| < DSL_MAX && s.memory.slots[slot].state != ARMED
    && Parse(text).Parsed?
    && !AsksReserved(Needs(Parse(text).inst))
    && Fits(Needs(Parse(text).inst), slot, Declared(s))
  }

  lemma NeedsShape(inst: Inst)
    requires Accepted(inst)
    ensures DistinctPins(Needs(inst)) && (Claimable(Needs(inst)) <==> !AsksReserved(Needs(inst)))
  {
    hide Needs, DistinctPins, Claimable, AsksReserved, Accepted;
    NeedsClaimable(inst);
  }

  /** Claiming for a slot that has nothing yet. */
  lemma ClaimForSlot(t: Table, decl: seq<seq<Need>>, slot: nat, inst: Inst)
    requires |decl| == SLOTS && TableIs(t, decl) && slot < SLOTS && decl[slot] == [] && Accepted(inst)
    ensures var (u, st) := ClaimAll(t, slot, Needs(inst));
      && (st == ClaimOk) == (!AsksReserved(Needs(inst)) && Fits(Needs(inst), slot, decl))
      && (st == ClaimOk ==> TableIs(u, decl[slot := Needs(inst)]) && Claimable(Needs(inst)))
      && (st != ClaimOk ==> TableIs(u, decl))
  {
    hide TableIs, Fits, Needs, ClaimAll, AsksReserved, Claimable, DistinctPins, Accepted;
    NeedsShape(inst);
    assert decl[slot] + Needs(inst) == Needs(inst) && decl[slot := []] == decl;
    ClaimAllLaw(t, decl, slot, Needs(inst));
  }

  lemma ViewsKept(t: Table, u: Table, decl: seq<seq<Need>>)
    requires TableIs(t, decl) && TableIs(u, decl)
    ensures forall p :: 0 <= p < PINS ==> View(u[p]) == View(t[p])
  {
    hide RecordOk, View;
    forall p | 0 <= p < PINS
      ensures View(u[p]) == View(t[p])
    {
      ViewUnique(t[p], u[p], decl, p);
    }
  }

  /** What a host command does with a text that parses, for a slot it may go to. */
  lemma SetParsed(s: State, slot: nat, text: string)
    requires Shape(s) && slot < FRAMEWORK && text != "" && |text| < DSL_MAX && s.memory.slots[slot].state != ARMED
    requires Parse(text).Parsed?
    ensures var inst := Parse(text).inst;
      var (t, st) := ClaimAll(s.table, slot, Needs(inst));
      var q := SetDsl(s, slot, text).0;
      && (SetDsl(s, slot, text).1 == ReplyOk <==> st == ClaimOk)
      && q.table == t
      && (st != ClaimOk ==> q == s.(table := t))
      && (st == ClaimOk ==> q.memory == PutSlot(s, slot, Slot(ARMED, ID_DSL, 0, inst, text)).memory
                            && q.others == s.others && q.levels == s.levels)
  {
    hide Parse, ClaimAll, Needs;
  }

  lemma DeclaredOf(q: State, r: State)
    requires Shape(q) && Shape(r) && q.memory == r.memory && q.others == r.others
    ensures Declared(q) == Declared(r)
  {
    hide DeclOf;
  }

  lemma ParsedSlotOk(text: string)
    requires text != "" && |text| < DSL_MAX && Parse(text).Parsed? && Claimable(Needs(Parse(text).inst))
    ensures SlotOk(Slot(ARMED, ID_DSL, 0, Parse(text).inst, text))
  {
    hide Parse, Needs, Claimable, Accepted;
    ParseSound(text);
    AcceptedTf(Parse(text).inst);
  }

  lemma FreeDeclares(s: State, slot: nat)
    requires Inv(s) && slot < FRAMEWORK && s.memory.slots[slot].state != ARMED
    ensures TableIs(s.table, Declared(s)) && |Declared(s)| == SLOTS && Declared(s)[slot] == []
  {
    hide TableIs, Needs, SlotOk;
  }

  /** Accepting or refusing the claims of a text that may go to this slot. */
  lemma SetClaims(s: State, slot: nat, text: string)
    requires Inv(s) && slot < FRAMEWORK && text != "" && |text| < DSL_MAX && s.memory.slots[slot].state != ARMED
    requires Parse(text).Parsed?
    ensures var inst, (q, reply) := Parse(text).inst, SetDsl(s, slot, text);
      && (reply == ReplyOk <==> !AsksReserved(Needs(inst)) && Fits(Needs(inst), slot, Declared(s)))
      && (reply == ReplyOk ==> SlotOk(q.memory.slots[slot]) && TableIs(q.table, Declared(q)))
      && (reply == ReplyOk ==>
            && q.memory == PutSlot(s, slot, Slot(ARMED, ID_DSL, 0, inst, text)).memory && q.levels == s.levels)
      && (reply != ReplyOk ==> q == s.(table := q.table) && TableIs(q.table, Declared(s)))
  {
    var inst := Parse(text).inst;
    var sl, q := Slot(ARMED, ID_DSL, 0, inst, text), SetDsl(s, slot, text).0;
    assert Shape(s) && DeclOf(sl) == Needs(inst);
    hide Inv, TableIs, SlotOk, Needs, Parse, Accepted, Fits, Claimable, AsksReserved;
    hide ClaimAll, SetDsl, Declared, DeclOf;
    FreeDeclares(s, slot);
    ParseSound(text);
    ClaimForSlot(s.table, Declared(s), slot, inst);
    SetParsed(s, slot, text);
    DeclaredPut(s, slot, sl);
    if SetDsl(s, slot, text).1 == ReplyOk {
      ParsedSlotOk(text);
      DeclaredOf(q, PutSlot(s, slot, sl));
    }
  }

  /** A text is accepted exactly when it is admissible; then the slot is armed with its parse. A
      refused one changes nothing: every pin keeps its owners, its mode and its levels. */
  lemma SetDslLaw(s: State, slot: nat, text: string)
    requires Inv(s)
    ensures var (q, reply) := SetDsl(s, slot, text);
      && Inv(q)
      && (reply == ReplyOk <==> Admissible(s, slot, text))
      && (reply == ReplyOk ==>
            var sl := Slot(1, 2, 0, Parse(text).inst, text);
            q.memory == s.memory.(slots := s.memory.slots[slot := sl]) && q.levels == s.levels)
      && (reply != ReplyOk ==>
            q == s.(table := q.table) && forall p :: 0 <= p < PINS ==> View(q.table[p]) == View(s.table[p]))
  {
    hide TableIs, Needs, Parse, View, Fits, AsksReserved, ClaimAll, SlotOk;
    if slot < FRAMEWORK && text != "" && |text| < DSL_MAX && s.memory.slots[slot].state != ARMED
       && Parse(text).Parsed? {
      SetClaims(s, slot, text);
      var (q, reply) := SetDsl(s, slot, text);
      if reply != ReplyOk {
        ViewsKept(s.table, q.table, Declared(s));
        assert Declared(q) == Declared(s);
      }
    }
  }

  lemma AcceptedTf(inst: Inst)
    requires Accepted(inst)
    ensures inst.(tf := Unevaluated) == inst
  {
  }

  /** Arming a compiled mode claims nothing, keeps the text that stood in its slot and leaves the other
      slot alone. */
  lemma ArmCompiledLaw(s: State, slot: nat, id: nat)
    requires Inv(s)
    ensures var (q, reply) := ArmCompiled(s, slot, id);
      && Inv(q) && q.table == s.table
      && (reply == ReplyOk <==> slot < 2 && id == 1 && s.memory.slots[slot].state != ARMED)
      && (reply == ReplyOk ==>
            var sl := Slot(1, 1, 0, Inst("", [], [], [], Unevaluated), s.memory.slots[slot].text);
            q.memory == s.memory.(slots := s.memory.slots[slot := sl]) && q.levels == s.levels)
      && (reply != ReplyOk ==> q == s)
  {
    hide TableIs, Needs, Parse, Claimable;
    var (q, reply) := ArmCompiled(s, slot, id);
    if reply == ReplyOk {
      DeclaredPut(s, slot, q.memory.slots[slot]);
      assert Declared(q) == Declared(s)[slot := []];
      assert Declared(s)[slot := []] == Declared(s);
    }
  }

  /** A disarmed slot owns nothing, and what the other slots own does not change. */
  lemma DisarmLaw(s: State, slot: nat)
    requires Inv(s)
    ensures var (q, reply) := Disarm(s, slot);
      && Inv(q) && (reply == ReplyOk <==> slot < 2) && (slot >= 2 ==> q == s)
      && (slot < 2 ==>
            var sl := Slot(0, 0, 0, Inst("", [], [], [], Unevaluated), "");
            q.memory == s.memory.(slots := s.memory.slots[slot := sl]) && q.levels == s.levels)
      && (slot < FRAMEWORK ==> forall p :: 0 <= p < PINS ==> q.table[p].owners == s.table[p].owners - {slot})
  {
    hide TableIs, Needs, Parse, Claimable, Release;
    if slot < FRAMEWORK {
      var q := Disarm(s, slot).0;
      ReleaseLaw(s.table, Declared(s), slot);
      DeclaredPut(s, slot, BlankSlot());
      assert Declared(q) == Declared(s)[slot := []];
      assert forall p :: 0 <= p < PINS ==> Dropped(s.table[p], slot).owners == s.table[p].owners - {slot};
    }
  }

  // ---- Booting ------------------------------------------------------------------------

  lemma FreshTableIs()
    ensures TableIs(FreshTable(), [[], [], [], [], [], [], [], []])
  {
    hide BoardPins.FindPin;
    var decl: seq<seq<Need>> := [[], [], [], [], [], [], [], []];
    forall p | 0 <= p < PINS
      ensures RecordOk(FreshTable()[p], decl, p)
    {
    }
  }

  /** Restoring a slot whose text parses. */
  lemma RestoreDsl(s: State, slot: nat, decl: seq<seq<Need>>)
    requires Shape(s) && slot < FRAMEWORK && |decl| == SLOTS && RuntimeOk(s.run[slot])
    requires var sl := s.memory.slots[slot];
      sl.state == ARMED && sl.id == ID_DSL && SlotPlausible(sl) && sl.boots <= MAX_BOOTS && Parse(sl.text).Parsed?
    requires TableIs(s.table, decl) && decl[slot] == []
    ensures var q, sl := RestoreSlot(s, slot), s.memory.slots[slot];
      && SlotOk(q.memory.slots[slot]) && RuntimeOk(q.run[slot])
      && TableIs(q.table, decl[slot := DeclOf(q.memory.slots[slot])])
      && (!AsksReserved(Needs(Parse(sl.text).inst)) && Fits(Needs(Parse(sl.text).inst), slot, decl) ==>
            q.memory.slots[slot] == sl.(inst := Parse(sl.text).inst))
  {
    hide TableIs, Needs, Parse, Accepted, Fits, Claimable, AsksReserved, ClaimAll;
    var inst := Parse(s.memory.slots[slot].text).inst;
    ParseSound(s.memory.slots[slot].text);
    AcceptedTf(inst);
    ClaimForSlot(s.table, decl, slot, inst);
    assert decl[slot := []] == decl;
  }

  /** What the restore of one slot does, next to whatever is claimed already. */
  lemma RestoreSlotLaw(s: State, slot: nat, decl: seq<seq<Need>>)
    requires Shape(s) && slot < FRAMEWORK && SlotPlausible(s.memory.slots[slot])
    requires s.memory.slots[slot].state == ARMED ==> s.memory.slots[slot].boots <= MAX_BOOTS
    requires |decl| == SLOTS && TableIs(s.table, decl) && decl[slot] == []
    requires RuntimeOk(s.run[slot])
    ensures var q, sl := RestoreSlot(s, slot), s.memory.slots[slot];
      && SlotOk(q.memory.slots[slot]) && RuntimeOk(q.run[slot])
      && TableIs(q.table, decl[slot := DeclOf(q.memory.slots[slot])])
      && (sl.state == ARMED && sl.id == ID_DSL && Parse(sl.text).Parsed?
          && !AsksReserved(Needs(Parse(sl.text).inst)) && Fits(Needs(Parse(sl.text).inst), slot, decl) ==>
            q.memory.slots[slot] == sl.(inst := Parse(sl.text).inst))
      && (sl.state != ARMED || sl.id != ID_DSL ==> q.memory.slots[slot] == sl)
  {
    assert decl[slot := []] == decl;
    var sl := s.memory.slots[slot];
    if sl.state == ARMED && sl.id == ID_DSL && Parse(sl.text).Parsed? {
      hide *;
      RestoreDsl(s, slot, decl);
    } else {
      hide TableIs, Needs, Parse, Fits, Claimable, AsksReserved, ClaimAll;
    }
  }

  lemma RestoreFrame(s: State, slot: nat)
    requires Shape(s) && slot < FRAMEWORK
    ensures var q := RestoreSlot(s, slot);
      && q.memory.slots[1 - slot] == s.memory.slots[1 - slot] && q.run[1 - slot] == s.run[1 - slot]
      && q.others == s.others && q.memory.stamped == s.memory.stamped && q.memory.crashed == s.memory.crashed
      && q.levels == s.levels
  {
    hide Parse, Needs, ClaimAll;
  }

  lemma BootSlots(m: Persist)
    requires |m.slots| == FRAMEWORK
    ensures var b := BootDecide(m);
      && b.stamped && (b.crashed == NO_SLOT || b.crashed < FRAMEWORK)
      && SlotPlausible(b.slots[0]) && (b.slots[0].state == ARMED ==> b.slots[0].boots <= MAX_BOOTS)
      && SlotPlausible(b.slots[1]) && (b.slots[1].state == ARMED ==> b.slots[1].boots <= MAX_BOOTS)
  {
  }

  function OnlyFirst(sl: Slot): seq<seq<Need>> { [DeclOf(sl), [], [], [], [], [], [], []] }

  /** The state between the restores of the two slots. */
  lemma FirstRestore(m: Persist, levels: seq<nat>)
    requires |m.slots| == FRAMEWORK && |levels| == PINS
    ensures var b := RestoreSlot(AfterReset(m, levels), 0);
      && SlotOk(b.memory.slots[0]) && RuntimeOk(b.run[0]) && TableIs(b.table, OnlyFirst(b.memory.slots[0]))
      && b.memory.slots[1] == BootDecide(m).slots[1] && RuntimeOk(b.run[1])
      && b.others == NoOthers() && b.memory.stamped && (b.memory.crashed == NO_SLOT || b.memory.crashed < FRAMEWORK)
  {
    hide TableIs, RestoreSlot, SlotOk, DeclOf, BootDecide, SlotPlausible;
    var none: seq<seq<Need>> := [[], [], [], [], [], [], [], []];
    var a := AfterReset(m, levels);
    BootSlots(m);
    FreshTableIs();
    RestoreSlotLaw(a, 0, none);
    RestoreFrame(a, 0);
    var b := RestoreSlot(a, 0);
    assert none[0 := DeclOf(b.memory.slots[0])] == OnlyFirst(b.memory.slots[0]);
  }

  /** Whatever a reset finds in memory, the framework starts in a state in order: every armed slot is
      parsed from its text, and owns exactly the pins it declares. */
  lemma RestartInv(m: Persist, levels: seq<nat>)
    requires |m.slots| == FRAMEWORK && |levels| == PINS
    ensures Inv(Restart(m, levels))
  {
    hide TableIs, RestoreSlot, SlotOk, DeclOf, BootDecide, SlotPlausible, AfterReset;
    BootSlots(m);
    FirstRestore(m, levels);
    var b := RestoreSlot(AfterReset(m, levels), 0);
    RestoreSlotLaw(b, 1, OnlyFirst(b.memory.slots[0]));
    RestoreFrame(b, 1);
    var c := RestoreSlot(b, 1);
    assert Declared(c) == OnlyFirst(b.memory.slots[0])[1 := DeclOf(c.memory.slots[1])];
  }

  // ---- A warm reset -------------------------------------------------------------------

  /** The slot a warm reset makes of an armed or idle one. */
  function Survivor(sl: Slot): Slot {
    if sl.state != ARMED then sl
    else if sl.boots >= 3 then sl.(state := POISONED)
    else if sl.id == ID_DSL then sl.(boots := sl.boots + 1, inst := sl.inst.(tf := Unevaluated))
    else sl.(boots := sl.boots + 1)
  }

  lemma FitsFewer(needs: seq<Need>, slot: nat, decl: seq<seq<Need>>, fewer: seq<seq<Need>>)
    requires |decl| == |fewer| == SLOTS && Fits(needs, slot, decl)
    requires forall i :: 0 <= i < SLOTS && i != slot ==> fewer[i] == decl[i] || fewer[i] == []
    ensures Fits(needs, slot, fewer)
  {
    hide Compatible;
    forall i, k | 0 <= i < |needs| && 0 <= k < SLOTS && k != slot
      ensures Compatible(BoardPins.Some(needs[i]), At(fewer[k], needs[i].phys))
    {
      assert Compatible(BoardPins.Some(needs[i]), At(decl[k], needs[i].phys));
      CompatibleNone(BoardPins.Some(needs[i]), needs[i].phys);
    }
  }

  lemma CompatibleNone(n: BoardPins.Option<Need>, p: nat)
    ensures Compatible(n, At([], p))
  {
  }

  /** Restoring one armed slot of an orderly state succeeds, next to whatever part of the other
      declarations is back already. */
  lemma SlotComesBack(s: State, a: State, slot: nat, decl: seq<seq<Need>>)
    requires Inv(s) && Shape(a) && slot < FRAMEWORK && a.memory.slots[slot] == Counted(s.memory.slots[slot])
    requires TableIs(a.table, decl) && decl[slot] == [] && RuntimeOk(a.run[slot])
    requires forall i :: 0 <= i < SLOTS && i != slot ==> decl[i] == Declared(s)[i] || decl[i] == []
    ensures RestoreSlot(a, slot).memory.slots[slot] == Survivor(s.memory.slots[slot])
  {
    var sl := s.memory.slots[slot];
    assert SlotOk(sl);
    hide TableIs, RestoreSlot, Declared, Needs, Parse, Fits, AsksReserved, Claimable, Accepted;
    RestoreSlotLaw(a, slot, decl);
    if sl.state == ARMED && sl.id == ID_DSL && sl.boots < MAX_BOOTS {
      var inst := Parse(sl.text).inst;
      ParseSound(sl.text);
      NeedsIgnoreTf(sl.inst, Unevaluated);
      DeclaredFits(s, slot);
      FitsFewer(Needs(inst), slot, Declared(s), decl);
      NeedsClaimable(inst);
    }
  }

  /** After a warm reset every slot armed with boots to spare is armed again, with the same text and
      the same parsed instance, not evaluated yet; a slot at the limit is poisoned; the others stay
      as they were. No slot is poisoned by claiming its pins again. */
  lemma WarmResetExact(s: State)
    requires Inv(s)
    ensures var q := Restart(s.memory, s.levels);
      && q.memory.slots[0] == Survivor(s.memory.slots[0]) && q.memory.slots[1] == Survivor(s.memory.slots[1])
  {
    InvBoots(s);
    FirstComesBack(s);
    FirstRestore(s.memory, s.levels);
    SurvivorDecl(s.memory.slots[0]);
    assert Declared(s)[0] == DeclOf(s.memory.slots[0]);
    hide TableIs, RestoreSlot, SlotOk, DeclOf, Inv, Declared, AfterReset, Counted, Survivor, BootDecide;
    var b := RestoreSlot(AfterReset(s.memory, s.levels), 0);
    SlotComesBack(s, b, 1, OnlyFirst(b.memory.slots[0]));
    RestoreFrame(b, 1);
  }

  lemma InvBoots(s: State)
    requires Inv(s)
    ensures BootDecide(s.memory).slots == [Counted(s.memory.slots[0]), Counted(s.memory.slots[1])]
  {
    hide TableIs, Parse, Needs, Claimable;
    assert forall i :: 0 <= i < FRAMEWORK ==> SlotOk(s.memory.slots[i]);
  }

  lemma FirstComesBack(s: State)
    requires Inv(s)
    ensures RestoreSlot(AfterReset(s.memory, s.levels), 0).memory.slots[0] == Survivor(s.memory.slots[0])
  {
    assert Shape(s);
    hide TableIs, RestoreSlot, SlotOk, DeclOf, Inv, Declared, Counted, Survivor, BootDecide;
    InvBoots(s);
    FreshTableIs();
    SlotComesBack(s, AfterReset(s.memory, s.levels), 0, [[], [], [], [], [], [], [], []]);
  }

  lemma SurvivorDecl(sl: Slot)
    ensures DeclOf(Survivor(sl)) == DeclOf(sl) || DeclOf(Survivor(sl)) == []
    ensures Survivor(sl).state == ARMED ==> DeclOf(Survivor(sl)) == DeclOf(sl)
  {
    NeedsIgnoreTf(sl.inst, Unevaluated);
    hide Needs;
  }

  /** Pin p looks the same to `slot` in both tables. */
  predicate SameTo(slot: nat, c: Claim, d: Claim) {
    && (slot in c.owners <==> slot in d.owners)
    && (slot in c.owners ==> c.mode == d.mode && c.okValue == d.okValue && c.errValue == d.errValue)
    && (slot in c.owners && c.mode == AdcScan ==>
          c.oversample == d.oversample && c.shCyc == d.shCyc && c.channel == d.channel)
  }

  lemma HoldsSame(slot: nat, c: Claim, d: Claim, n: BoardPins.Option<Need>)
    requires Holds(c, slot, n) && Holds(d, slot, n)
    requires n.Some? && n.value.NeedIn? ==> n.value.mode != AdcScan
    ensures SameTo(slot, c, d)
  {
    hide BoardPins.FindPin;
  }

  /** A surviving slot owns the same pins as before the reset, in the same way; a poisoned one owns
      none. */
  lemma WarmResetPins(s: State, slot: nat, p: nat)
    requires Inv(s) && slot < FRAMEWORK && p < PINS
    ensures var q := Restart(s.memory, s.levels);
      && (q.memory.slots[slot].state == ARMED ==> SameTo(slot, s.table[p], q.table[p]))
      && (q.memory.slots[slot].state != ARMED ==> slot !in q.table[p].owners)
  {
    var q := Restart(s.memory, s.levels);
    WarmResetExact(s);
    RestartInv(s.memory, s.levels);
    var sl := s.memory.slots[slot];
    SurvivorDecl(sl);
    assert RecordOk(s.table[p], Declared(s), p) && RecordOk(q.table[p], Declared(q), p);
    assert Declared(s)[slot] == DeclOf(sl) && Declared(q)[slot] == DeclOf(Survivor(sl));
    assert Holds(s.table[p], slot, At(DeclOf(sl), p));
    assert Holds(q.table[p], slot, At(DeclOf(Survivor(sl)), p));
    assert q.memory.slots[slot].state != ARMED ==> DeclOf(Survivor(sl)) == [];
    DeclaredFits(s, slot);
    hide Restart, Inv, Declared, RecordOk, Needs, DeclOf, Survivor, At, Fits;
    if q.memory.slots[slot].state == ARMED {
      NotAdcIn(DeclOf(sl), p);
      HoldsSame(slot, s.table[p], q.table[p], At(DeclOf(sl), p));
    } else {
      NothingAsked(p);
    }
  }

  lemma NothingAsked(p: nat)
    ensures At([], p) == BoardPins.None
  {
  }

  lemma NotAdcIn(needs: seq<Need>, p: nat)
    requires Claimable(needs)
    ensures At(needs, p).Some? && At(needs, p).value.NeedIn? ==> At(needs, p).value.mode != AdcScan
  {
    hide BoardRule;
    if At(needs, p).Some? {
      var i :| 0 <= i < |needs| && needs[i] == At(needs, p).value;
      assert StaticRule(needs[i]) == ClaimOk;
    }
  }
}
