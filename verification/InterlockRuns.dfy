/** Runs of the interlock framework: arming, disarming, ticking and resetting in any order. */
module InterlockRuns {
  import opened Dsl
  import opened DslSoundness
  import opened InterlockEval
  import opened PinClaims
  import opened Interlocks
  import opened InterlockLaws
  import BoardPins

  /** A step: a host command, a tick with the raw readings of both slots, a warm reset, a start with
      whatever a power cut left in memory, and the modes outside the framework claiming or releasing
      pins on slots of their own. */
  datatype Action =
    | OpSet(slot: nat, text: string)
    | OpArm(slot: nat, id: nat)
    | OpDisarm(slot: nat)
    | OpTick(raw: seq<seq<nat>>)
    | OpReset
    | OpPower(memory: Persist)
    | OpOtherClaim(other: nat, needs: seq<Need>)
    | OpOtherRelease(other: nat)

  predicate ValidOp(op: Action) {
    match op
    case OpTick(raw) => RawOk(raw)
    case OpPower(m) => |m.slots| == FRAMEWORK
    case OpOtherClaim(k, _) => FRAMEWORK <= k < SLOTS
    case OpOtherRelease(k) => FRAMEWORK <= k < SLOTS
    case _ => true
  }

  /** Another mode claims its pins when it starts, on a slot that owns none. */
  function OtherClaim(s: State, k: nat, needs: seq<Need>): State
    requires Shape(s) && FRAMEWORK <= k < SLOTS
  {
    if s.others[k - FRAMEWORK] != [] || !DistinctPins(needs) then s
    else
      var (t, st) := ClaimAll(s.table, k, needs);
      s.(table := t, others := s.others[k - FRAMEWORK := if st == ClaimOk then needs else []])
  }

  function OtherRelease(s: State, k: nat): State
    requires Shape(s) && FRAMEWORK <= k < SLOTS
  {
    s.(table := Release(s.table, k), others := s.others[k - FRAMEWORK := []])
  }

  ghost function Step(s: State, op: Action): State
    requires Shape(s) && Tickable(s) && ValidOp(op)
  {
    match op
    case OpSet(slot, text) => SetDsl(s, slot, text).0
    case OpArm(slot, id) => ArmCompiled(s, slot, id).0
    case OpDisarm(slot) => Disarm(s, slot).0
    case OpTick(raw) => Tick(s, raw)
    case OpReset => Restart(s.memory, s.levels)
    case OpPower(m) => Restart(m, s.levels)
    case OpOtherClaim(k, needs) => OtherClaim(s, k, needs)
    case OpOtherRelease(k) => OtherRelease(s, k)
  }

  // ---- The invariant along a run ------------------------------------------------------

  lemma AcceptedShaped(inst: Inst)
    requires Accepted(inst)
    ensures Shaped(inst)
  {
    hide InputOk, OutputOk, PinsDistinct;
    forall k | 0 <= k < |inst.watches|
      ensures inst.watches[k].input < |inst.inputs| && inst.watches[k].group < 255
    {
      assert WatchOk(inst.inputs, inst.watches[k], k);
    }
  }

  lemma SlotTickable(sl: Slot, rt: Runtime)
    requires SlotOk(sl) && RuntimeOk(rt)
    ensures SlotShaped(sl, rt)
  {
    hide Parse, Accepted, Needs, Claimable;
    if sl.state == ARMED && sl.id == ID_DSL {
      ParseSound(sl.text);
      AcceptedShaped(Parse(sl.text).inst);
    }
  }

  lemma InvTickable(s: State)
    requires Inv(s)
    ensures Tickable(s)
  {
    hide SlotOk, TableIs, SlotShaped;
    SlotTickable(s.memory.slots[0], s.run[0]);
    SlotTickable(s.memory.slots[1], s.run[1]);
  }

  lemma EvaluatedOk(sl: Slot, rt: Runtime, raw: seq<nat>)
    requires SlotOk(sl) && SlotShaped(sl, rt) && |raw| == MAX_INPUTS
    ensures var e := Evaluated(sl, rt, raw);
      SlotOk(e.0) && RuntimeOk(e.1) && DeclOf(e.0) == DeclOf(sl)
  {
    var e := Evaluated(sl, rt, raw);
    NeedsIgnoreTf(sl.inst, e.0.inst.tf);
    hide Parse, Needs, Claimable, Vote, After, Shaped;
  }

  /** A tick keeps the invariant: it evaluates, and claims nothing. */
  lemma TickInv(s: State, raw: seq<seq<nat>>)
    requires Inv(s) && RawOk(raw) && Tickable(s)
    ensures Inv(Tick(s, raw))
  {
    hide SlotOk, TableIs, SlotShaped, Evaluated, DeclOf, Driven;
    EvaluatedOk(s.memory.slots[0], s.run[0], raw[0]);
    EvaluatedOk(s.memory.slots[1], s.run[1], raw[1]);
    assert Declared(Tick(s, raw)) == Declared(s);
  }

  lemma OtherClaimInv(s: State, k: nat, needs: seq<Need>)
    requires Inv(s) && FRAMEWORK <= k < SLOTS
    ensures Inv(OtherClaim(s, k, needs))
  {
    hide SlotOk, TableIs, Fits, Claimable, DistinctPins, ClaimAll, DeclOf;
    if s.others[k - FRAMEWORK] == [] && DistinctPins(needs) {
      var d := Declared(s);
      assert d[k] == [] && d[k] + needs == needs;
      ClaimAllLaw(s.table, d, k, needs);
      var q := OtherClaim(s, k, needs);
      assert Declared(q) == d[k := if ClaimAll(s.table, k, needs).1 == ClaimOk then needs else []];
    }
  }

  lemma OtherReleaseInv(s: State, k: nat)
    requires Inv(s) && FRAMEWORK <= k < SLOTS
    ensures Inv(OtherRelease(s, k))
  {
    hide SlotOk, TableIs, Release, DeclOf;
    ReleaseLaw(s.table, Declared(s), k);
    assert Declared(OtherRelease(s, k)) == Declared(s)[k := []];
  }

  /** Every step keeps the invariant. */
  lemma StepInv(s: State, op: Action)
    requires Inv(s) && ValidOp(op) && Tickable(s)
    ensures Inv(Step(s, op))
  {
    assert Shape(s);
    hide Inv, Tick, SetDsl, Disarm, ArmCompiled, Restart, OtherClaim, OtherRelease, View, Admissible;
    match op
    case OpSet(slot, text) => SetDslLaw(s, slot, text);
    case OpArm(slot, id) => ArmCompiledLaw(s, slot, id);
    case OpDisarm(slot) => DisarmLaw(s, slot);
    case OpTick(raw) => TickInv(s, raw);
    case OpReset => RestartInv(s.memory, s.levels);
    case OpPower(m) => RestartInv(m, s.levels);
    case OpOtherClaim(k, needs) => OtherClaimInv(s, k, needs);
    case OpOtherRelease(k) => OtherReleaseInv(s, k);
  }

  /** The state after a list of steps; the invariant holds all along. */
  ghost function Run(s: State, ops: seq<Action>): (r: State)
    requires Inv(s) && forall i :: 0 <= i < |ops| ==> ValidOp(ops[i])
    ensures Inv(r)
    decreases |ops|
  {
    if ops == [] then s
    else
      InvTickable(s);
      StepInv(s, ops[0]);
      Run(Step(s, ops[0]), ops[1..])
  }

  // ---- Ownership ----------------------------------------------------------------------

  predicate Declares(inst: Inst, p: nat) {
    (exists i :: 0 <= i < |inst.inputs| && inst.inputs[i].mode != Virtual && inst.inputs[i].phys == p)
    || exists i :: 0 <= i < |inst.outputs| && inst.outputs[i].phys == p
  }

  lemma {:induction false} InputAsked(xs: seq<Input>, j: nat) returns (i: nat)
    requires j < |xs| && xs[j].mode != Virtual
    ensures i < |InputNeeds(xs)| && InputNeeds(xs)[i] == NeedOf(xs[j])
    decreases |xs|
  {
    if j == 0 {
      i := 0;
    } else {
      i := InputAsked(xs[1..], j - 1);
      i := if xs[0].mode == Virtual then i else i + 1;
    }
  }

  lemma NeedsDeclare(inst: Inst, p: nat)
    ensures At(Needs(inst), p).Some? <==> Declares(inst, p)
  {
    var a, b := InputNeeds(inst.inputs), OutputNeeds(inst.outputs);
    var r := At(Needs(inst), p);
    hide At, NeedOf;
    if r.Some? {
      var k :| 0 <= k < |Needs(inst)| && Needs(inst)[k] == r.value;
      if k < |a| {
        var j := InputNeedSource(inst.inputs, k);
      } else {
        assert Needs(inst)[k] == b[k - |a|];
      }
    }
    if Declares(inst, p) {
      if i :| 0 <= i < |inst.inputs| && inst.inputs[i].mode != Virtual && inst.inputs[i].phys == p {
        var k := InputAsked(inst.inputs, i);
        assert Needs(inst)[k].phys == p;
      } else {
        var i :| 0 <= i < |inst.outputs| && inst.outputs[i].phys == p;
        assert Needs(inst)[|a| + i].phys == p;
      }
    }
  }

  lemma OwnsAsked(s: State, slot: nat, p: nat)
    requires Inv(s) && slot < FRAMEWORK && p < PINS
    ensures slot in s.table[p].owners <==> At(DeclOf(s.memory.slots[slot]), p).Some?
  {
    var n := At(DeclOf(s.memory.slots[slot]), p);
    assert RecordOk(s.table[p], Declared(s), p);
    assert Declared(s)[slot] == DeclOf(s.memory.slots[slot]);
    hide At, DeclOf, Inv, Declared, BoardPins.FindPin;
    assert Holds(s.table[p], slot, n);
  }

  /** In every reachable state a framework slot owns a pin exactly when it is armed and its instance
      declares the pin; an input pin has one owner; a pin without an owner is unclaimed. */
  lemma OwnersDeclare(s: State, slot: nat, p: nat)
    requires Inv(s) && slot < FRAMEWORK && p < PINS
    ensures var sl, c := s.memory.slots[slot], s.table[p];
      && (slot in c.owners <==> sl.state == ARMED && sl.id == ID_DSL && Declares(sl.inst, p))
      && (c.owners != {} && c.mode != GpioOut ==> |c.owners| == 1)
      && (c.owners == {} ==> c.mode == Unclaimed && c.okValue == 0 && c.errValue == 0)
  {
    var sl, c := s.memory.slots[slot], s.table[p];
    OwnsAsked(s, slot, p);
    assert RecordOk(c, Declared(s), p);
    ShownIsConsistent(s.table, Declared(s));
    NeedsDeclare(sl.inst, p);
    NothingAsked(p);
    hide At, Needs, Declares, Inv, Holds, Declared;
    if c.owners != {} && c.mode != GpioOut {
      assert |c.owners| <= 1;
      assert |c.owners| != 0;
    }
  }

  /** A physical input is what its slot asks of its pin. */
  lemma InputAskedAs(inst: Inst, i: nat)
    requires i < |inst.inputs| && inst.inputs[i].mode != Virtual && PinsDistinct(inst)
    ensures At(Needs(inst), inst.inputs[i].phys) == BoardPins.Some(NeedOf(inst.inputs[i]))
  {
    NeedsDistinct(inst);
    var k := InputAsked(inst.inputs, i);
    assert Needs(inst)[k] == NeedOf(inst.inputs[i]);
    hide InputNeeds, OutputNeeds, At, PinsDistinct, NeedOf;
    AtItself(Needs(inst), k);
  }

  lemma ArmedInput(sl: Slot, i: nat)
    requires SlotOk(sl) && sl.state == ARMED && sl.id == ID_DSL && i < |sl.inst.inputs|
    ensures PinsDistinct(sl.inst) && (sl.inst.inputs[i].mode != Virtual ==> sl.inst.inputs[i].phys < PINS)
  {
    hide Parse, Needs, Claimable, OutputOk, WatchOk, BoardPins.OnBoard;
    ParseSound(sl.text);
    assert WellFormed(Parse(sl.text).inst);
    assert sl.inst.outputs == Parse(sl.text).inst.outputs && sl.inst.inputs == Parse(sl.text).inst.inputs;
    assert InputOk(sl.inst.inputs[i]);
  }

  /** In every reachable state each input pin of an armed slot is set up as the instance declares it:
      with the pull it names, or for the converter with its own sampling. */
  lemma InputsSetUp(s: State, slot: nat, i: nat)
    requires Inv(s) && slot < FRAMEWORK
    requires var sl := s.memory.slots[slot]; sl.state == ARMED && sl.id == ID_DSL && i < |sl.inst.inputs|
    ensures var x := s.memory.slots[slot].inst.inputs[i];
      x.mode != Virtual ==>
        && x.phys < PINS
        && var c := s.table[x.phys];
        && c.owners == {slot}
        && (x.mode == In ==> c.mode == GpioIn)
        && (x.mode == InUp ==> c.mode == GpioInUp)
        && (x.mode == InDown ==> c.mode == GpioInDown)
        && (x.mode == Adc ==>
              && c.mode == AdcScan && c.oversample == x.oversample && c.shCyc == x.shCyc
              && BoardPins.FindPin(x.phys).Some? && c.channel == BoardPins.FindPin(x.phys).value.adcChannel)
  {
    var sl := s.memory.slots[slot];
    var x := sl.inst.inputs[i];
    if x.mode != Virtual {
      ArmedInput(sl, i);
      InputAskedAs(sl.inst, i);
      assert RecordOk(s.table[x.phys], Declared(s), x.phys);
      assert Declared(s)[slot] == Needs(sl.inst);
      hide At, Needs, Parse, Accepted, Inv, PinsDistinct, Declared, BoardPins.FindPin;
      assert Holds(s.table[x.phys], slot, At(Needs(sl.inst), x.phys));
    }
  }

  // ---- At most three warm resets ------------------------------------------------------

  predicate Arms(op: Action, slot: nat) {
    match op
    case OpSet(k, _) => k == slot
    case OpArm(k, _) => k == slot
    case OpPower(_) => true
    case _ => false
  }

  function Resets(ops: seq<Action>): nat {
    if ops == [] then 0 else (if ops[0].OpReset? then 1 else 0) + Resets(ops[1..])
  }

  lemma SetKeepsOther(s: State, k: nat, text: string, slot: nat)
    requires Shape(s) && slot < FRAMEWORK && k != slot
    ensures SetDsl(s, k, text).0.memory.slots[slot] == s.memory.slots[slot]
  {
    hide Parse, ClaimAll, Needs;
  }

  /** The same arming: alike but for the evaluation, with `resets` more resets counted. */
  predicate SameArming(before: Slot, after: Slot, resets: nat) {
    after.state == ARMED ==>
      && before.state == ARMED && after.boots == before.boots + resets
      && after.id == before.id && after.text == before.text
      && after.inst.(tf := Unevaluated) == before.inst.(tf := Unevaluated)
  }

  lemma SurvivorCounts(sl: Slot)
    ensures SameArming(sl, Survivor(sl), 1)
  {
  }

  /** What one step that does not arm the slot does to its count. */
  lemma StepCounts(s: State, op: Action, slot: nat)
    requires Inv(s) && Tickable(s) && ValidOp(op) && slot < FRAMEWORK && !Arms(op, slot)
    ensures SameArming(s.memory.slots[slot], Step(s, op).memory.slots[slot], if op.OpReset? then 1 else 0)
  {
    if op.OpReset? {
      assert Shape(s) && Step(s, op) == Restart(s.memory, s.levels);
      hide *;
      WarmResetExact(s);
      SurvivorCounts(s.memory.slots[slot]);
    } else {
      hide Inv, Tickable, Step, SameArming;
      OtherSteps(s, op, slot);
    }
  }

  lemma TickKeepsCount(s: State, raw: seq<seq<nat>>, slot: nat)
    requires Tickable(s) && RawOk(raw) && slot < FRAMEWORK
    ensures var before, after := s.memory.slots[slot], Tick(s, raw).memory.slots[slot];
      after == before.(inst := before.inst.(tf := after.inst.tf))
  {
    hide Driven, Vote, After, SlotShaped;
  }

  lemma ArmKeepsOther(s: State, k: nat, id: nat, slot: nat)
    requires Shape(s) && slot < FRAMEWORK && k != slot
    ensures ArmCompiled(s, k, id).0.memory.slots[slot] == s.memory.slots[slot]
  {
  }

  lemma DisarmKeepsOther(s: State, k: nat, slot: nat)
    requires Shape(s) && slot < FRAMEWORK
    ensures Disarm(s, k).0.memory.slots[slot] == if k == slot then BlankSlot() else s.memory.slots[slot]
  {
    hide Release;
  }

  lemma OtherSteps(s: State, op: Action, slot: nat)
    requires Shape(s) && Tickable(s) && ValidOp(op) && slot < FRAMEWORK && !Arms(op, slot) && !op.OpReset?
    ensures SameArming(s.memory.slots[slot], Step(s, op).memory.slots[slot], 0)
  {
    hide ClaimAll, Release, Tickable, DistinctPins, SetDsl, Tick, Restart, Disarm, ArmCompiled, RawOk;
    match op
    case OpTick(raw) => TickKeepsCount(s, raw, slot);
    case OpSet(k, text) => SetKeepsOther(s, k, text, slot);
    case OpArm(k, id) => ArmKeepsOther(s, k, id, slot);
    case OpDisarm(k) => DisarmKeepsOther(s, k, slot);
    case _ =>
  }

  /** A slot that nobody arms again is the one that was armed at the start, and its count is the
      number of warm resets since: so no slot outlives more than three. */
  lemma {:induction false} AtMostThreeResets(s: State, ops: seq<Action>, slot: nat)
    requires Inv(s) && slot < FRAMEWORK
    requires forall i :: 0 <= i < |ops| ==> ValidOp(ops[i]) && !Arms(ops[i], slot)
    ensures var before, after := s.memory.slots[slot], Run(s, ops).memory.slots[slot];
      after.state == ARMED ==>
        && before.state == ARMED && after.boots == before.boots + Resets(ops) <= 3
        && after.id == before.id && after.text == before.text
        && after.inst.(tf := Unevaluated) == before.inst.(tf := Unevaluated)
    decreases |ops|
  {
    ArmedWithin(s, slot);
    hide Inv, Step;
    if ops != [] {
      InvTickable(s);
      StepInv(s, ops[0]);
      StepCounts(s, ops[0], slot);
      AtMostThreeResets(Step(s, ops[0]), ops[1..], slot);
    }
  }

  lemma ArmedWithin(s: State, slot: nat)
    requires Inv(s) && slot < FRAMEWORK
    ensures s.memory.slots[slot].state == ARMED ==> s.memory.slots[slot].boots <= MAX_BOOTS
  {
    hide TableIs, Parse, Needs, Claimable;
    assert SlotOk(s.memory.slots[slot]);
  }

  /** What a tick makes of a slot: nothing if it is not armed, a pass if it is armed with the no-op, and
      otherwise a pass or a veto as its condition says. */
  lemma TickVerdict(s: State, raw: seq<seq<nat>>, slot: nat)
    requires Tickable(s) && RawOk(raw) && slot < 2
    ensures var before, after := s.memory.slots[slot], Tick(s, raw).memory.slots[slot];
      && after == before.(inst := before.inst.(tf := after.inst.tf))
      && (before.state != 1 ==> after == before)
      && (before.state == 1 && before.id == 1 ==> after.inst.tf == Pass)
      && (before.state == 1 && before.id == 2 ==>
            after.inst.tf == if Vote(before.inst, s.run[slot], raw[slot]) then Pass else Veto)
  {
    hide Vote, After, Driven, Shaped;
  }

  // ---- The outputs --------------------------------------------------------------------

  predicate DrivesOutput(sl: Slot, p: nat) {
    sl.state == ARMED && sl.id == ID_DSL && exists i :: 0 <= i < |sl.inst.outputs| && sl.inst.outputs[i].phys == p
  }

  /** The slot is armed, drives p, and its condition does not hold on these readings. */
  ghost predicate Objects(s: State, raw: seq<seq<nat>>, slot: nat, p: nat)
    requires Tickable(s) && RawOk(raw) && slot < FRAMEWORK
  {
    DrivesOutput(s.memory.slots[slot], p) && !Vote(s.memory.slots[slot].inst, s.run[slot], raw[slot])
  }

  lemma OutputAsked(inst: Inst, i: nat)
    requires i < |inst.outputs| && PinsDistinct(inst)
    ensures var o := inst.outputs[i];
      At(Needs(inst), o.phys) == BoardPins.Some(NeedOut(o.phys, o.okValue, o.errValue))
  {
    NeedsDistinct(inst);
    var k := |InputNeeds(inst.inputs)| + i;
    assert Needs(inst)[k] == OutputNeeds(inst.outputs)[i];
    hide InputNeeds, OutputNeeds, At, PinsDistinct;
    AtItself(Needs(inst), k);
  }

  /** The instance of an armed slot is well formed. */
  lemma ArmedInst(sl: Slot)
    requires SlotOk(sl) && sl.state == ARMED && sl.id == ID_DSL
    ensures PinsDistinct(sl.inst) && forall i :: 0 <= i < |sl.inst.outputs| ==> OutputOk(sl.inst.outputs[i])
  {
    hide Parse, Needs, Claimable, OutputOk, InputOk, WatchOk;
    ParseSound(sl.text);
    assert WellFormed(Parse(sl.text).inst);
    assert sl.inst.outputs == Parse(sl.text).inst.outputs && sl.inst.inputs == Parse(sl.text).inst.inputs;
  }

  /** The record of an output pin some armed slot declares. */
  lemma OutputRecord(s: State, slot: nat, i: nat)
    requires Inv(s) && slot < FRAMEWORK
    requires var sl := s.memory.slots[slot]; sl.state == ARMED && sl.id == ID_DSL && i < |sl.inst.outputs|
    ensures var o := s.memory.slots[slot].inst.outputs[i];
      && o.phys < PINS && slot in s.table[o.phys].owners && s.table[o.phys].mode == GpioOut
      && s.table[o.phys].okValue == o.okValue && s.table[o.phys].errValue == o.errValue
  {
    var sl := s.memory.slots[slot];
    var o := sl.inst.outputs[i];
    ArmedInst(sl);
    OutputAsked(sl.inst, i);
    assert o.phys < PINS by { assert OutputOk(o); }
    assert RecordOk(s.table[o.phys], Declared(s), o.phys);
    assert Declared(s)[slot] == Needs(sl.inst);
    hide At, Needs, Parse, Accepted, Inv, OutputOk, PinsDistinct, Declared;
    assert Holds(s.table[o.phys], slot, At(Needs(sl.inst), o.phys));
  }

  /** Two armed slots that share an output pin declare the same levels for it. */
  lemma SharersAgree(s: State, a: nat, i: nat, b: nat, j: nat)
    requires Inv(s) && a < FRAMEWORK && b < FRAMEWORK
    requires var sl := s.memory.slots[a]; sl.state == ARMED && sl.id == ID_DSL && i < |sl.inst.outputs|
    requires var sl := s.memory.slots[b]; sl.state == ARMED && sl.id == ID_DSL && j < |sl.inst.outputs|
    requires s.memory.slots[a].inst.outputs[i].phys == s.memory.slots[b].inst.outputs[j].phys
    ensures var o, q := s.memory.slots[a].inst.outputs[i], s.memory.slots[b].inst.outputs[j];
      o.okValue == q.okValue && o.errValue == q.errValue
  {
    assert Shape(s);
    hide Inv;
    OutputRecord(s, a, i);
    OutputRecord(s, b, j);
  }

  /** What an instance asks of a pin is an output of its own, or an input that is no output. */
  lemma AskedAs(inst: Inst, p: nat)
    requires At(Needs(inst), p).Some?
    ensures var n := At(Needs(inst), p).value;
      || (exists i :: 0 <= i < |inst.outputs| && inst.outputs[i].phys == p)
      || (!n.NeedOut? && (n.NeedIn? ==> n.mode != GpioOut))
  {
    var r := At(Needs(inst), p);
    var a := InputNeeds(inst.inputs);
    hide At, NeedOf;
    var k :| 0 <= k < |Needs(inst)| && Needs(inst)[k] == r.value;
    if k < |a| {
      var j := InputNeedSource(inst.inputs, k);
      NotOut(inst.inputs[j]);
    } else {
      assert inst.outputs[k - |a|].phys == p;
    }
  }

  /** A framework owner of an output pin declares it as an output. */
  lemma OwnerDrives(s: State, slot: nat, p: nat)
    requires Inv(s) && slot < FRAMEWORK && p < PINS && slot in s.table[p].owners && s.table[p].mode == GpioOut
    ensures DrivesOutput(s.memory.slots[slot], p)
  {
    var sl := s.memory.slots[slot];
    OwnersDeclare(s, slot, p);
    assert RecordOk(s.table[p], Declared(s), p) && Declared(s)[slot] == Needs(sl.inst);
    assert Holds(s.table[p], slot, At(Needs(sl.inst), p));
    hide At, Inv, Needs, Declares, Holds;
    HoldsOut(s.table[p], slot, At(Needs(sl.inst), p));
    AskedAs(sl.inst, p);
  }

  lemma HoldsOut(c: Claim, slot: nat, n: BoardPins.Option<Need>)
    requires Holds(c, slot, n) && slot in c.owners && c.mode == GpioOut
    ensures n.Some? && (n.value.NeedIn? ==> n.value.mode == GpioOut) && !n.value.NeedAdc?
  {
    hide BoardPins.FindPin;
  }

  lemma NotOut(x: Input)
    ensures NeedOf(x).NeedIn? ==> NeedOf(x).mode != GpioOut
    ensures !NeedOf(x).NeedOut?
  {
  }

  lemma VetoIsObjection(s: State, raw: seq<seq<nat>>, slot: nat, p: nat)
    requires Inv(s) && Tickable(s) && RawOk(raw) && slot < FRAMEWORK && DrivesOutput(s.memory.slots[slot], p)
    ensures Vetoes(Tick(s, raw).memory.slots[slot]) <==> Objects(s, raw, slot, p)
  {
    hide Inv, Vote, After, Driven;
  }

  lemma DrivenOutput(s: State, raw: seq<seq<nat>>, p: nat)
    requires Inv(s) && Tickable(s) && RawOk(raw) && p < PINS && s.table[p].mode == GpioOut
    requires s.table[p].owners * MANAGED != {}
    ensures Tick(s, raw).levels[p] ==
      if Objects(s, raw, 0, p) || Objects(s, raw, 1, p) then s.table[p].errValue else s.table[p].okValue
  {
    hide Inv, Objects, Vetoes;
    var q := Tick(s, raw);
    forall slot: nat | slot < FRAMEWORK
      ensures slot in s.table[p].owners * VetoMask(q.memory.slots) <==> Objects(s, raw, slot, p)
    {
      ObjectsOwns(s, raw, slot, p);
      if slot in s.table[p].owners {
        OwnerDrives(s, slot, p);
        VetoIsObjection(s, raw, slot, p);
      }
    }
  }

  lemma ObjectsOwns(s: State, raw: seq<seq<nat>>, slot: nat, p: nat)
    requires Inv(s) && Tickable(s) && RawOk(raw) && slot < FRAMEWORK
    ensures Objects(s, raw, slot, p) ==> p < PINS && slot in s.table[p].owners
  {
    var sl := s.memory.slots[slot];
    if Objects(s, raw, slot, p) {
      var i :| 0 <= i < |sl.inst.outputs| && sl.inst.outputs[i].phys == p;
      hide Inv, Vote;
      OutputRecord(s, slot, i);
    }
  }

  /** After every tick each output an armed interlock declares carries its error level exactly when
      some armed owner's condition fails on this tick's readings, and its good level otherwise:
      the order of the slots does not matter. */
  lemma OutputsAreVetoes(s: State, raw: seq<seq<nat>>, slot: nat, i: nat)
    requires Inv(s) && Tickable(s) && RawOk(raw) && slot < FRAMEWORK
    requires var sl := s.memory.slots[slot]; sl.state == ARMED && sl.id == ID_DSL && i < |sl.inst.outputs|
    ensures var o := s.memory.slots[slot].inst.outputs[i];
      && o.phys < PINS
      && Tick(s, raw).levels[o.phys] ==
         if Objects(s, raw, 0, o.phys) || Objects(s, raw, 1, o.phys) then o.errValue else o.okValue
  {
    assert Shape(s);
    hide Inv, Objects, Tick, Tickable, At, DrivesOutput;
    OutputRecord(s, slot, i);
    var p := s.memory.slots[slot].inst.outputs[i].phys;
    assert slot in s.table[p].owners * MANAGED;
    DrivenOutput(s, raw, p);
  }

  /** A pin no framework slot drives keeps its level. */
  lemma OthersKeepLevel(s: State, raw: seq<seq<nat>>, p: nat)
    requires Inv(s) && Tickable(s) && RawOk(raw) && p < PINS
    requires !DrivesOutput(s.memory.slots[0], p) && !DrivesOutput(s.memory.slots[1], p)
    ensures Tick(s, raw).levels[p] == s.levels[p]
  {
    hide Inv, DrivesOutput, Evaluated;
    forall slot: nat | slot < FRAMEWORK
      ensures !(s.table[p].mode == GpioOut && slot in s.table[p].owners)
    {
      if s.table[p].mode == GpioOut && slot in s.table[p].owners {
        OwnerDrives(s, slot, p);
      }
    }
  }
}
