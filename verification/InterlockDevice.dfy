/** The interlock framework as the program runs it: slots, filter memory and the pin table updated in
    place. */
module InterlockDevice {
  import opened Dsl
  import opened DslParser
  import opened InterlockEval
  import opened PinClaims
  import opened Interlocks

  lemma InputStep(xs: seq<Input>, i: nat)
    requires i < |xs|
    ensures InputNeeds(xs[i..]) ==
      if xs[i].mode == Virtual then InputNeeds(xs[i + 1..]) else [NeedOf(xs[i])] + InputNeeds(xs[i + 1..])
  {
    assert xs[i..][0] == xs[i] && xs[i..][1..] == xs[i + 1..];
  }

  lemma OutputStep(ys: seq<Output>, i: nat)
    requires i < |ys|
    ensures OutputNeeds(ys[i..]) == [NeedOut(ys[i].phys, ys[i].okValue, ys[i].errValue)] + OutputNeeds(ys[i + 1..])
  {
    assert ys[i..][0] == ys[i] && ys[i..][1..] == ys[i + 1..];
  }

  lemma ClaimStep(t: Table, slot: nat, n: Need, rest: seq<Need>)
    ensures ClaimAll(t, slot, [n] + rest) ==
      (var (u, st) := ClaimOne(t, slot, n); if st == ClaimOk then ClaimAll(u, slot, rest) else (Release(u, slot), st))
  {
    assert ([n] + rest)[1..] == rest;
  }

  /** Claims every pin of an instance; at the first refusal releases what the slot owns. */
  method ClaimInstPins(pins: PinTable, slot: nat, inst: Inst) returns (st: PinClaims.Status)
    requires pins.Valid()
    modifies pins.claims
    ensures (pins.claims[..], st) == ClaimAll(old(pins.claims[..]), slot, Needs(inst))
  {
    hide ClaimAll, ClaimOne, Release, InputNeeds, OutputNeeds, NeedOf;
    ghost var goal := ClaimAll(pins.claims[..], slot, Needs(inst));
    var xs, ys := inst.inputs, inst.outputs;
    assert xs[0..] == xs;
    var i := 0;
    while i < |xs|
      invariant 0 <= i <= |xs|
      invariant ClaimAll(pins.claims[..], slot, InputNeeds(xs[i..]) + OutputNeeds(ys)) == goal
    {
      InputStep(xs, i);
      if xs[i].mode != Virtual {
        ghost var rest := InputNeeds(xs[i + 1..]) + OutputNeeds(ys);
        ClaimStep(pins.claims[..], slot, NeedOf(xs[i]), rest);
        assert InputNeeds(xs[i..]) + OutputNeeds(ys) == [NeedOf(xs[i])] + rest;
        NeedShape(xs[i]);
        if xs[i].mode == Adc {
          st := pins.ClaimAdc(xs[i].phys, slot, xs[i].oversample, xs[i].shCyc);
        } else {
          st := pins.ClaimInput(xs[i].phys, slot, InputMode(xs[i].mode));
        }
        if st != ClaimOk {
          pins.ReleaseSlot(slot);
          return;
        }
      }
      i := i + 1;
    }
    assert xs[i..] == [] && ys[0..] == ys;
    NoInputs();
    assert InputNeeds(xs[i..]) + OutputNeeds(ys) == OutputNeeds(ys);
    i := 0;
    while i < |ys|
      invariant 0 <= i <= |ys|
      invariant ClaimAll(pins.claims[..], slot, OutputNeeds(ys[i..])) == goal
    {
      OutputStep(ys, i);
      ClaimStep(pins.claims[..], slot, NeedOut(ys[i].phys, ys[i].okValue, ys[i].errValue), OutputNeeds(ys[i + 1..]));
      st := pins.ClaimOutput(ys[i].phys, slot, ys[i].okValue, ys[i].errValue);
      if st != ClaimOk {
        pins.ReleaseSlot(slot);
        return;
      }
      i := i + 1;
    }
    assert ys[i..] == [];
    NoOutputs();
    NoClaims(pins.claims[..], slot);
    st := ClaimOk;
  }

  lemma NoInputs()
    ensures InputNeeds([]) == []
  {
  }

  lemma NoOutputs()
    ensures OutputNeeds([]) == []
  {
  }

  lemma NoClaims(t: Table, slot: nat)
    ensures ClaimAll(t, slot, []) == (t, ClaimOk)
  {
  }

  lemma NeedShape(x: Input)
    ensures NeedOf(x) ==
      if x.mode == Adc then NeedAdc(x.phys, x.oversample, x.shCyc) else NeedIn(x.phys, InputMode(x.mode))
  {
  }

  class Framework {
    var stamped: bool
    var crashed: nat
    const slots: array<Slot>
    const run: array<Runtime>
    const pins: PinTable
    /** What the modes outside the framework have claimed; only the specification speaks of it. */
    ghost var others: seq<seq<Need>>

    ghost predicate Valid()
      reads this, slots, run, pins
    {
      && slots.Length == FRAMEWORK && run.Length == FRAMEWORK && pins.Valid() && |others| == SLOTS - FRAMEWORK
      && (pins.claims as object) != pins.levels && (pins.claims as object) != slots && (pins.claims as object) != run
      && (pins.levels as object) != slots && (pins.levels as object) != run && (slots as object) != run
    }

    ghost function Now(): (s: State)
      requires Valid()
      reads this, slots, run, pins, pins.claims, pins.levels
      ensures Shape(s)
    {
      State(Persist(stamped, slots[..], crashed), pins.claims[..], run[..], pins.levels[..], others)
    }

    /** A reset: what memory held is kept, the rest starts afresh. */
    constructor (m: Persist)
      requires |m.slots| == FRAMEWORK
      ensures Valid() && fresh(slots) && fresh(run) && fresh(pins) && fresh(pins.claims) && fresh(pins.levels)
      ensures Now() == State(m, FreshTable(), [Cleared(), Cleared()], seq(PINS, _ => 0), NoOthers())
    {
      stamped := m.stamped;
      crashed := m.crashed;
      slots := new Slot[FRAMEWORK](i requires 0 <= i < FRAMEWORK => m.slots[i]);
      run := new Runtime[FRAMEWORK](_ => Cleared());
      pins := new PinTable();
      others := NoOthers();
      new;
      assert slots[..] == m.slots && run[..] == [Cleared(), Cleared()] && pins.claims[..] == FreshTable();
      assert pins.levels[..] == seq(PINS, _ => 0);
    }

    method SetSlotDsl(slot: nat, text: string) returns (reply: Reply)
      requires Valid()
      modifies slots, run, pins.claims
      ensures Valid() && (Now(), reply) == SetDsl(old(Now()), slot, text)
    {
      hide ClaimAll, Parse, Needs;
      if slot >= FRAMEWORK {
        return BadArgs;
      }
      if text == "" || |text| >= DSL_MAX {
        return BadArgs;
      }
      if slots[slot].state == ARMED {
        return Busy;
      }
      var parser := new Parser(text);
      var outcome := parser.ParseText();
      if outcome.Failed? {
        return BadArgs;
      }
      var st := ClaimInstPins(pins, slot, outcome.inst);
      if st != ClaimOk {
        return Busy;
      }
      slots[slot] := slots[slot].(inst := outcome.inst, text := text);
      slots[slot] := slots[slot].(state := ARMED, id := ID_DSL, boots := 0);
      run[slot] := Cleared();
      reply := ReplyOk;
      assert slots[..] == old(slots[..])[slot := slots[slot]] && run[..] == old(run[..])[slot := Cleared()];
    }

    method ArmSlotCompiled(slot: nat, id: nat) returns (reply: Reply)
      requires Valid()
      modifies slots, run
      ensures Valid() && (Now(), reply) == ArmCompiled(old(Now()), slot, id)
    {
      if slot >= FRAMEWORK || id == ID_NONE || id == ID_DSL || id > ID_NOOP {
        return BadArgs;
      }
      if slots[slot].state == ARMED {
        return Busy;
      }
      slots[slot] := slots[slot].(state := ARMED, id := id, boots := 0);
      slots[slot] := slots[slot].(inst := BlankInst());
      run[slot] := Cleared();
      reply := ReplyOk;
      assert slots[..] == old(slots[..])[slot := slots[slot]] && run[..] == old(run[..])[slot := Cleared()];
    }

    method DisarmSlot(slot: nat) returns (reply: Reply)
      requires Valid()
      modifies slots, run, pins.claims
      ensures Valid() && (Now(), reply) == Disarm(old(Now()), slot)
    {
      hide Release;
      if slot >= FRAMEWORK {
        return BadArgs;
      }
      pins.ReleaseSlot(slot);
      slots[slot] := slots[slot].(state := EMPTY, id := ID_NONE, boots := 0);
      slots[slot] := slots[slot].(inst := BlankInst(), text := "");
      run[slot] := Cleared();
      reply := ReplyOk;
      assert slots[..] == old(slots[..])[slot := slots[slot]] && run[..] == old(run[..])[slot := Cleared()];
    }

    method PersistIsValid() returns (ok: bool)
      requires Valid()
      ensures ok == Plausible(Now().memory)
    {
      if !stamped {
        return false;
      }
      var i := 0;
      while i < FRAMEWORK
        invariant 0 <= i <= FRAMEWORK
        invariant forall k :: 0 <= k < i ==> SlotPlausible(slots[k])
      {
        var s := slots[i];
        assert Now().memory.slots[i] == s;
        if s.state > POISONED {
          return false;
        }
        if s.id != ID_NONE && s.id != ID_NOOP && s.id != ID_DSL {
          return false;
        }
        if s.state == ARMED && s.id == ID_NONE {
          return false;
        }
        if s.state == ARMED && s.id == ID_DSL && (s.text == "" || |s.text| >= DSL_MAX) {
          return false;
        }
        i := i + 1;
      }
      ok := crashed == NO_SLOT || crashed < FRAMEWORK;
    }

    method Boot()
      requires Valid()
      modifies this`stamped, this`crashed, slots
      ensures Valid() && Now() == old(Now()).(memory := BootDecide(old(Now()).memory))
    {
      var ok := PersistIsValid();
      hide Plausible;
      ghost var m := Now().memory;
      var i := 0;
      if !ok {
        stamped := true;
        while i < FRAMEWORK
          invariant 0 <= i <= FRAMEWORK
          invariant stamped && forall k :: 0 <= k < i ==> slots[k] == BlankSlot()
        {
          slots[i] := BlankSlot();
          i := i + 1;
        }
        crashed := NO_SLOT;
        assert slots[..] == [BlankSlot(), BlankSlot()];
        return;
      }
      PlausibleStamped(m);
      while i < FRAMEWORK
        invariant 0 <= i <= FRAMEWORK && stamped == m.stamped && crashed == m.crashed
        invariant forall k :: 0 <= k < i ==> slots[k] == Counted(m.slots[k])
        invariant forall k :: i <= k < FRAMEWORK ==> slots[k] == m.slots[k]
      {
        if slots[i].state == ARMED {
          if slots[i].boots >= MAX_BOOTS {
            slots[i] := slots[i].(state := POISONED);
          } else {
            slots[i] := slots[i].(boots := slots[i].boots + 1);
          }
        }
        i := i + 1;
      }
      assert slots[..] == [Counted(m.slots[0]), Counted(m.slots[1])];
      assert BootDecide(m) == m.(slots := slots[..]);
    }

    lemma PlausibleStamped(m: Persist)
      requires Plausible(m)
      ensures m.stamped
    {
    }

    method WarmRestore()
      requires Valid()
      modifies slots, run, pins.claims
      ensures Valid() && Now() == RestoreSlot(RestoreSlot(old(Now()), 0), 1)
    {
      hide RestoreSlot;
      RestoreOne(0);
      RestoreOne(1);
    }

    /** The body of the restore loop. */
    method RestoreOne(slot: nat)
      requires Valid() && slot < FRAMEWORK
      modifies slots, run, pins.claims
      ensures Valid() && Now() == RestoreSlot(old(Now()), slot)
    {
      hide ClaimAll, Parse, Needs;
      if slots[slot].state != ARMED {
        return;
      }
      if slots[slot].id != ID_DSL {
        run[slot] := Cleared();
        return;
      }
      var text := slots[slot].text;
      if text == "" || |text| >= DSL_MAX {
        slots[slot] := slots[slot].(state := POISONED);
        return;
      }
      var parser := new Parser(text);
      var outcome := parser.ParseText();
      if outcome.Failed? {
        slots[slot] := slots[slot].(state := POISONED);
        return;
      }
      var st := ClaimInstPins(pins, slot, outcome.inst);
      if st != ClaimOk {
        slots[slot] := slots[slot].(state := POISONED);
        return;
      }
      slots[slot] := slots[slot].(inst := outcome.inst);
      slots[slot] := slots[slot].(inst := slots[slot].inst.(tf := Unevaluated));
      run[slot] := Cleared();
    }

    /** The evaluation of one slot, in place. */
    method EvaluateOne(slot: nat, raw: seq<nat>)
      requires Valid() && slot < FRAMEWORK && SlotShaped(slots[slot], run[slot]) && |raw| == MAX_INPUTS
      modifies slots, run
      ensures Valid()
      ensures (slots[slot], run[slot]) == Evaluated(old(slots[slot]), old(run[slot]), raw)
      ensures forall k :: 0 <= k < FRAMEWORK && k != slot ==> slots[k] == old(slots[k]) && run[k] == old(run[k])
    {
      hide Vote, After, Shaped;
      if slots[slot].state != ARMED {
        return;
      }
      if slots[slot].id == ID_DSL {
        var tf, rt, vals := EvalSlot(slots[slot].inst, run[slot], raw);
        run[slot] := rt;
        slots[slot] := slots[slot].(inst := slots[slot].inst.(tf := tf));
      } else if slots[slot].id == ID_NOOP {
        slots[slot] := slots[slot].(inst := slots[slot].inst.(tf := Pass));
      }
    }

    method TickAll(raw: seq<seq<nat>>)
      requires Valid() && Tickable(Now()) && RawOk(raw)
      modifies slots, run, pins.levels
      ensures Valid() && Now() == Tick(old(Now()), raw)
    {
      hide Evaluated, Driven, SlotShaped;
      EvaluateOne(0, raw[0]);
      EvaluateOne(1, raw[1]);
      var veto: set<nat> := {};
      var slot := 0;
      while slot < FRAMEWORK
        invariant 0 <= slot <= FRAMEWORK
        invariant veto == (set k: nat | k < slot && Vetoes(slots[k]))
      {
        if slots[slot].state == ARMED {
          if slots[slot].inst.tf == Veto {
            veto := veto + {slot};
          }
        }
        slot := slot + 1;
      }
      assert veto == VetoMask(slots[..]);
      pins.DriveOutputs(veto, MANAGED);
      assert Now().levels == Tick(old(Now()), raw).levels;
    }
  }
}
