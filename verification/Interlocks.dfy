/** The interlock framework: slots that survive a warm reset, the pins they claim, the boot decision
    and the warm restore, and the tick that drives the outputs. */
module Interlocks {
  import opened Dsl
  import opened InterlockEval
  import opened PinClaims
  import BoardPins

  const FRAMEWORK := 2
  const MAX_BOOTS := 3
  const DSL_MAX := 128

  const EMPTY := 0
  const ARMED := 1
  const POISONED := 2

  const ID_NONE := 0
  const ID_NOOP := 1
  const ID_DSL := 2

  const NO_SLOT := 0xFF

  /** One slot of the memory that a reset leaves alone; `text` is the stored text cut to its stored
      length. State and id are bytes: after a power cut they may hold anything. */
  datatype Slot = Slot(state: nat, id: nat, boots: nat, inst: Inst, text: string)

  /** That memory: whether magic, version and size are in place, the slots, the crashed slot. */
  datatype Persist = Persist(stamped: bool, slots: seq<Slot>, crashed: nat)

  /** The whole framework. `others` is what the modes outside the framework, on slots 2 to 7, have
      claimed in the same pin table. */
  datatype State = State(memory: Persist, table: Table, run: seq<Runtime>, levels: seq<nat>, others: seq<seq<Need>>)

  datatype Reply = ReplyOk | BadArgs | Busy

  function BlankInst(): Inst { Inst("", [], [], [], Unevaluated) }

  function BlankSlot(): Slot { Slot(EMPTY, ID_NONE, 0, BlankInst(), "") }

  // ---- What an instance claims --------------------------------------------------------

  function InputMode(m: PinMode): Mode {
    match m
    case In => GpioIn
    case InUp => GpioInUp
    case InDown => GpioInDown
    case Adc => AdcScan
    case Virtual => Unclaimed
  }

  function NeedOf(x: Input): (r: Need)
    ensures r.phys == x.phys
  {
    if x.mode == Adc then NeedAdc(x.phys, x.oversample, x.shCyc) else NeedIn(x.phys, InputMode(x.mode))
  }

  /** A virtual input has no pin to claim. */
  function InputNeeds(xs: seq<Input>): (r: seq<Need>)
    decreases |xs|
  {
    if xs == [] then []
    else if xs[0].mode == Virtual then InputNeeds(xs[1..])
    else [NeedOf(xs[0])] + InputNeeds(xs[1..])
  }

  function OutputNeeds(ys: seq<Output>): (r: seq<Need>)
    ensures |r| == |ys| && forall i :: 0 <= i < |ys| ==> r[i] == NeedOut(ys[i].phys, ys[i].okValue, ys[i].errValue)
    decreases |ys|
  {
    if ys == [] then [] else [NeedOut(ys[0].phys, ys[0].okValue, ys[0].errValue)] + OutputNeeds(ys[1..])
  }

  function Needs(inst: Inst): seq<Need> { InputNeeds(inst.inputs) + OutputNeeds(inst.outputs) }

  /** What a slot of the framework has declared. */
  function DeclOf(s: Slot): seq<Need> { if s.state == ARMED && s.id == ID_DSL then Needs(s.inst) else [] }

  function Declared(s: State): (r: seq<seq<Need>>)
    requires |s.memory.slots| == FRAMEWORK
  {
    [DeclOf(s.memory.slots[0]), DeclOf(s.memory.slots[1])] + s.others
  }

  // ---- Arming and disarming -----------------------------------------------------------

  predicate Shape(s: State) {
    && |s.memory.slots| == FRAMEWORK && |s.run| == FRAMEWORK && |s.levels| == PINS
    && |s.others| == SLOTS - FRAMEWORK
  }

  function PutSlot(s: State, slot: nat, sl: Slot): (r: State)
    requires Shape(s) && slot < FRAMEWORK
    ensures Shape(r)
  {
    s.(memory := s.memory.(slots := s.memory.slots[slot := sl]))
  }

  function PutRun(s: State, slot: nat, r: Runtime): (q: State)
    requires Shape(s) && slot < FRAMEWORK
    ensures Shape(q)
  {
    s.(run := s.run[slot := r])
  }

  function SetDsl(s: State, slot: nat, text: string): (r: (State, Reply))
    requires Shape(s)
    ensures Shape(r.0)
  {
    if slot >= FRAMEWORK || text == "" || |text| >= DSL_MAX then (s, BadArgs)
    else if s.memory.slots[slot].state == ARMED then (s, Busy)
    else if Parse(text).Failed? then (s, BadArgs)
    else
      var inst := Parse(text).inst;
      var (t, st) := ClaimAll(s.table, slot, Needs(inst));
      if st != ClaimOk then (s.(table := t), Busy)
      else (PutRun(PutSlot(s.(table := t), slot, Slot(ARMED, ID_DSL, 0, inst, text)), slot, Cleared()), ReplyOk)
  }

  /** Arms a compiled mode. The one there is, the no-op, claims no pin. */
  function ArmCompiled(s: State, slot: nat, id: nat): (r: (State, Reply))
    requires Shape(s)
    ensures Shape(r.0)
  {
    if slot >= FRAMEWORK || id == ID_NONE || id == ID_DSL || id > ID_NOOP then (s, BadArgs)
    else if s.memory.slots[slot].state == ARMED then (s, Busy)
    else
      (PutRun(PutSlot(s, slot, Slot(ARMED, id, 0, BlankInst(), s.memory.slots[slot].text)), slot, Cleared()), ReplyOk)
  }

  function Disarm(s: State, slot: nat): (r: (State, Reply))
    requires Shape(s)
    ensures Shape(r.0)
  {
    if slot >= FRAMEWORK then (s, BadArgs)
    else (PutRun(PutSlot(s.(table := Release(s.table, slot)), slot, BlankSlot()), slot, Cleared()), ReplyOk)
  }

  // ---- Booting ------------------------------------------------------------------------

  predicate SlotPlausible(s: Slot) {
    && s.state <= POISONED
    && (s.id == ID_NONE || s.id == ID_NOOP || s.id == ID_DSL)
    && !(s.state == ARMED && s.id == ID_NONE)
    && (s.state == ARMED && s.id == ID_DSL ==> s.text != "" && |s.text| < DSL_MAX)
  }

  predicate Plausible(m: Persist) {
    && m.stamped
    && (forall i :: 0 <= i < |m.slots| ==> SlotPlausible(m.slots[i]))
    && (m.crashed == NO_SLOT || m.crashed < FRAMEWORK)
  }

  function Counted(s: Slot): Slot {
    if s.state != ARMED then s
    else if s.boots >= MAX_BOOTS then s.(state := POISONED)
    else s.(boots := s.boots + 1)
  }

  function BootDecide(m: Persist): (r: Persist)
    requires |m.slots| == FRAMEWORK
    ensures |r.slots| == FRAMEWORK
  {
    if !Plausible(m) then Persist(true, [BlankSlot(), BlankSlot()], NO_SLOT)
    else m.(slots := [Counted(m.slots[0]), Counted(m.slots[1])])
  }

  function Poison(s: State, slot: nat): (r: State)
    requires Shape(s) && slot < FRAMEWORK
    ensures Shape(r)
  {
    PutSlot(s, slot, s.memory.slots[slot].(state := POISONED))
  }

  function RestoreSlot(s: State, slot: nat): (r: State)
    requires Shape(s) && slot < FRAMEWORK
    ensures Shape(r)
  {
    var sl := s.memory.slots[slot];
    if sl.state != ARMED then s
    else if sl.id != ID_DSL then PutRun(s, slot, Cleared())
    else if sl.text == "" || |sl.text| >= DSL_MAX || Parse(sl.text).Failed? then Poison(s, slot)
    else
      var inst := Parse(sl.text).inst;
      var (t, st) := ClaimAll(s.table, slot, Needs(inst));
      if st != ClaimOk then Poison(s.(table := t), slot)
      else PutRun(PutSlot(s.(table := t), slot, sl.(inst := inst.(tf := Unevaluated))), slot, Cleared())
  }

  function FreshTable(): Table { seq(PINS, p => Fresh()) }

  function NoOthers(): seq<seq<Need>> { [[], [], [], [], [], []] }

  /** The state just after a reset that found `m` in memory: no pin is claimed, no mode is running. */
  function AfterReset(m: Persist, levels: seq<nat>): (r: State)
    requires |m.slots| == FRAMEWORK && |levels| == PINS
    ensures Shape(r)
  {
    State(BootDecide(m), FreshTable(), [Cleared(), Cleared()], levels, NoOthers())
  }

  function Restart(m: Persist, levels: seq<nat>): (r: State)
    requires |m.slots| == FRAMEWORK && |levels| == PINS
    ensures Shape(r)
  {
    RestoreSlot(RestoreSlot(AfterReset(m, levels), 0), 1)
  }

  // ---- The tick -----------------------------------------------------------------------

  predicate SlotShaped(sl: Slot, rt: Runtime) {
    RuntimeOk(rt) && (sl.state == ARMED && sl.id == ID_DSL ==> Shaped(sl.inst))
  }

  predicate RawOk(raw: seq<seq<nat>>) {
    |raw| == FRAMEWORK && |raw[0]| == |raw[1]| == MAX_INPUTS
  }

  /** The evaluation of one slot: a DSL slot votes, the no-op is always content. */
  ghost function Evaluated(sl: Slot, rt: Runtime, raw: seq<nat>): (Slot, Runtime)
    requires SlotShaped(sl, rt) && |raw| == MAX_INPUTS
  {
    if sl.state != ARMED then (sl, rt)
    else if sl.id == ID_DSL then
      (sl.(inst := sl.inst.(tf := if Vote(sl.inst, rt, raw) then Pass else Veto)), After(sl.inst, rt, raw))
    else if sl.id == ID_NOOP then (sl.(inst := sl.inst.(tf := Pass)), rt)
    else (sl, rt)
  }

  predicate Vetoes(sl: Slot) { sl.state == ARMED && sl.inst.tf == Veto }

  function VetoMask(slots: seq<Slot>): (r: set<nat>)
    requires |slots| == FRAMEWORK
    ensures forall s: nat :: s in r <==> s < FRAMEWORK && Vetoes(slots[s])
  {
    (if Vetoes(slots[0]) then {0} else {}) + (if Vetoes(slots[1]) then {1} else {})
  }

  const MANAGED: set<nat> := {0, 1}

  predicate Tickable(s: State) {
    Shape(s) && SlotShaped(s.memory.slots[0], s.run[0]) && SlotShaped(s.memory.slots[1], s.run[1])
  }

  /** Evaluate every slot, then drive every claimed output once. */
  ghost function Tick(s: State, raw: seq<seq<nat>>): (r: State)
    requires Tickable(s) && RawOk(raw)
    ensures Shape(r)
  {
    var e0 := Evaluated(s.memory.slots[0], s.run[0], raw[0]);
    var e1 := Evaluated(s.memory.slots[1], s.run[1], raw[1]);
    var slots := [e0.0, e1.0];
    s.(memory := s.memory.(slots := slots), run := [e0.1, e1.1],
       levels := seq(PINS, p requires 0 <= p < PINS => Driven(s.table[p], s.levels[p], VetoMask(slots), MANAGED)))
  }
}
