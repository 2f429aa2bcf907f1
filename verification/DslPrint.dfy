/** Writing an interlock instance back as text. Every printer is given the text that follows. */
module DslPrint {
  import opened BoardPins
  import opened Dsl
  import opened DslSoundness

  /** How to write a threshold. */
  datatype Radix = Decimal | LowerHex | UpperHex

  /** How to write what can be written in several ways: a lone pin without its parentheses; a comparison
      for equality without its operator and converter settings only where they are not the usual ones; a
      threshold in decimal or in hexadecimal. */
  datatype Style = Style(bare: bool, short: bool, radix: Radix)

  function Digit(d: nat): (c: char)
    requires d < 10
    ensures IsDigit(c) && c as nat - '0' as nat == d
  {
    '0' + d as char
  }

  function Dec(n: nat): (s: string)
    ensures s != "" && AllDigits(s)
  {
    if n < 10 then [Digit(n)] else Dec(n / 10) + [Digit(n % 10)]
  }

  const LOWER := "0123456789abcdef"
  const UPPER := "0123456789ABCDEF"

  function HexChar(d: nat, upper: bool): char
    requires d < 16
  {
    if upper then UPPER[d] else LOWER[d]
  }

  function Hex(n: nat, upper: bool): string {
    if n < 16 then [HexChar(n, upper)] else Hex(n / 16, upper) + [HexChar(n % 16, upper)]
  }

  function Number(radix: Radix, n: nat): string {
    match radix
    case Decimal => Dec(n)
    case LowerHex => "0x" + Hex(n, false)
    case UpperHex => "0X" + Hex(n, true)
  }

  // ---- cfg[...] -----------------------------------------------------------------------

  /** What cfg declares, one pin at a time. */
  datatype Pin = InPin(input: Input) | OutPin(output: Output)

  function PinPhys(p: Pin): nat { if p.InPin? then p.input.phys else p.output.phys }

  function Samples(exp: nat): nat {
    match exp
    case 0 => 1
    case 1 => 2
    case 2 => 4
    case 3 => 8
    case _ => 16
  }

  function GpioMods(mode: PinMode, debounce: nat): seq<string> {
    (match mode
     case InUp => ["in", "up"]
     case InDown => ["in", "down"]
     case _ => ["in"])
    + if debounce == 0 then [] else ["debounce_" + Dec(debounce)]
  }

  function Unless(b: bool, m: string): seq<string> { if b then [] else [m] }

  /** One sample, four cycles of sample and hold, and no dead band are the usual settings. */
  function AdcMods(st: Style, oversample: nat, shCyc: nat, hyst: nat): (r: seq<string>)
    ensures |r| <= 4
  {
    ["adc"]
    + (Unless(st.short && oversample == 0, "oversample_" + Dec(Samples(oversample)))
       + (Unless(st.short && shCyc == 4, "sh_" + Dec(shCyc)) + Unless(st.short && hyst == 0, "hyst_" + Dec(hyst))))
  }

  function OutMods(openDrain: nat): seq<string> {
    if openDrain == 0 then ["out"] else if openDrain == 1 then ["oc"] else ["oc", "up"]
  }

  function Mods(st: Style, p: Pin): (r: seq<string>)
    ensures 1 <= |r| <= 4
  {
    match p
    case OutPin(o) => OutMods(o.openDrain)
    case InPin(x) => if x.mode == Adc then AdcMods(st, x.oversample, x.shCyc, x.hyst) else GpioMods(x.mode, x.debounce)
  }

  function ModsText(mods: seq<string>, k: string): string
    requires mods != []
  {
    if |mods| == 1 then mods[0] + k else mods[0] + ("," + ModsText(mods[1..], k))
  }

  function PinText(st: Style, name: string, k: string): string {
    if st.bare then name + (":" + k) else "(" + (name + (")" + (":" + k)))
  }

  function GroupText(st: Style, p: Pin, k: string): string {
    PinText(st, LabelOf(PinPhys(p)), ModsText(Mods(st, p), k))
  }

  function CfgText(st: Style, pins: seq<Pin>, k: string): string
    requires pins != []
  {
    if |pins| == 1 then GroupText(st, pins[0], k) else GroupText(st, pins[0], "," + CfgText(st, pins[1..], k))
  }

  // ---- watch[...] ---------------------------------------------------------------------

  function OpName(op: Op): string {
    match op
    case Eq => "eq"
    case Ne => "ne"
    case Lt => "lt"
    case Gt => "gt"
    case Le => "le"
    case Ge => "ge"
  }

  function VirtName(phys: nat): string {
    if phys == 0xF0 then "_t_since_m2s" else if phys == 0xF1 then "_uptime" else "_stack_hwm"
  }

  function OperandName(x: Input): string { if x.mode == Virtual then VirtName(x.phys) else LabelOf(x.phys) }

  function ComparisonText(st: Style, op: Op, threshold: nat, k: string): string {
    var n := Number(st.radix, threshold);
    if st.short && op == Eq then n + k else OpName(op) + (":" + (n + k))
  }

  function ClauseText(st: Style, inputs: seq<Input>, w: Watch, k: string): string
    requires w.input < |inputs|
  {
    OperandName(inputs[w.input]) + (":" + ComparisonText(st, w.op, w.threshold, k))
  }

  predicate InputsNamed(inst: Inst) {
    forall j :: 0 <= j < |inst.watches| ==> inst.watches[j].input < |inst.inputs|
  }

  /** The clauses from number i on; a clause of the next group is set off by a bar. */
  function WatchText(st: Style, inst: Inst, i: nat, k: string): string
    requires i < |inst.watches| && InputsNamed(inst)
    decreases |inst.watches| - i
  {
    ClauseText(st, inst.inputs, inst.watches[i],
      if i + 1 == |inst.watches| then k
      else (if inst.watches[i + 1].group == inst.watches[i].group then "," else "|") + WatchText(st, inst, i + 1, k))
  }

  // ---- out_ok[...] and out_err[...] ---------------------------------------------------

  function LevelOf(o: Output, isOk: bool): nat { if isOk then o.okValue else o.errValue }

  function OutText(outs: seq<Output>, isOk: bool, i: nat, k: string): string
    requires i < |outs|
    decreases |outs| - i
  {
    LabelOf(outs[i].phys) + (":" + (Dec(LevelOf(outs[i], isOk)) +
      if i + 1 == |outs| then k else "," + OutText(outs, isOk, i + 1, k)))
  }

  // ---- The whole message --------------------------------------------------------------

  /** The number of physical inputs, which come first. */
  function Physical(xs: seq<Input>): (n: nat)
    ensures n <= |xs|
  {
    if xs == [] || xs[0].mode == Virtual then 0 else 1 + Physical(xs[1..])
  }

  function PinsOf(inst: Inst): seq<Pin> {
    seq(Physical(inst.inputs), i requires 0 <= i < Physical(inst.inputs) => InPin(inst.inputs[i]))
    + seq(|inst.outputs|, i requires 0 <= i < |inst.outputs| => OutPin(inst.outputs[i]))
  }

  function CfgSection(st: Style, inst: Inst, k: string): string {
    if PinsOf(inst) == [] then k else ";" + ("cfg" + ("[" + CfgText(st, PinsOf(inst), "]" + k)))
  }

  function WatchSection(st: Style, inst: Inst, k: string): string
    requires InputsNamed(inst)
  {
    if inst.watches == [] then k else ";" + ("watch" + ("[" + WatchText(st, inst, 0, "]" + k)))
  }

  function OutSections(inst: Inst, k: string): string {
    if inst.outputs == [] then k
    else
      ";" + ("out_ok" + ("[" + OutText(inst.outputs, true, 0,
        "]" + (";" + ("out_err" + ("[" + OutText(inst.outputs, false, 0, "]" + k)))))))
  }

  function Print(st: Style, inst: Inst): string
    requires InputsNamed(inst)
  {
    inst.name + CfgSection(st, inst, WatchSection(st, inst, OutSections(inst, "")))
  }

  // ---- Canonical instances ------------------------------------------------------------

  predicate Word(w: string) {
    0 < |w| < 256 && IsStart(w[0]) && forall i :: 0 <= i < |w| ==> IsCont(w[i])
  }

  /** How many inputs have been declared once the first k watches are read: the physical ones, and
      each virtual one from its first use on. */
  function DeclaredBy(inst: Inst, k: nat): nat
    requires k <= |inst.watches|
  {
    if k == 0 then Physical(inst.inputs)
    else
      var n := DeclaredBy(inst, k - 1);
      if inst.watches[k - 1].input == n then n + 1 else n
  }

  /** Physical inputs first, virtual inputs in the order of their first use and none unused, groups
      numbered from 0 without gaps. */
  ghost predicate Canonical(inst: Inst) {
    && Accepted(inst) && Word(inst.name)
    && (forall i :: Physical(inst.inputs) <= i < |inst.inputs| ==> inst.inputs[i].mode == Virtual)
    && (forall k :: 0 <= k < |inst.watches| ==> inst.watches[k].input <= DeclaredBy(inst, k))
    && DeclaredBy(inst, |inst.watches|) == |inst.inputs|
    && (inst.watches != [] ==> inst.watches[0].group == 0)
    && (forall k :: 0 <= k < |inst.watches| - 1 ==>
          inst.watches[k].group <= inst.watches[k + 1].group <= inst.watches[k].group + 1)
  }
}
