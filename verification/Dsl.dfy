/** The interlock language: its instances and its recursive-descent parser, as functions on the
    text that is still unread. */
module Dsl {
  import opened BoardPins

  // ---- Instances ----------------------------------------------------------------------

  datatype PinMode = In | InUp | InDown | Adc | Virtual

  datatype Op = Eq | Ne | Lt | Gt | Le | Ge

  datatype Tf = Unevaluated | Pass | Veto

  datatype Input = Input(phys: nat, mode: PinMode, oversample: nat, shCyc: nat, debounce: nat, hyst: nat)

  datatype Watch = Watch(input: nat, op: Op, threshold: nat, group: nat)

  datatype Output = Output(phys: nat, okValue: nat, errValue: nat, openDrain: nat)

  datatype Inst = Inst(name: string, inputs: seq<Input>, watches: seq<Watch>, outputs: seq<Output>, tf: Tf)

  const NAME_MAX := 16
  const MAX_INPUTS := 4
  const MAX_WATCHES := 8
  const MAX_OUTPUTS := 2

  const VIRT_T_SINCE_M2S := 0xF0
  const VIRT_UPTIME := 0xF1
  const VIRT_STACK_HWM := 0xF2

  datatype Status =
    | UnexpectedChar | BadNumber | UnknownKeyword | UnknownPin | UnknownMode | TooManyInputs
    | TooManyWatches | TooManyOutputs | NameTooLong | DuplicatePin | WatchInputUndecl | OutputUndecl
    | OutputValueMismatch | MissingOutOk | MissingOutErr | Empty | UnknownOp | OversampleOutOfRange
    | ShOutOfRange | ModifierOnGpio | ThresholdOutOfRange | HystNotOnAdc | DebounceNotOnGpio
    | DebounceOutOfRange | UnknownVirtual | HystOnEqNe

  /** A parser step: what it read and what is left, or why and where it gave up. */
  datatype Read<T> = Ok(value: T, rest: string) | Err(status: Status, at: string)

  // ---- Characters and tokens ----------------------------------------------------------

  predicate IsSpace(c: char) { c == ' ' || c == '\t' || c == '\r' || c == '\n' }

  predicate IsStart(c: char) { 'a' <= c <= 'z' || 'A' <= c <= 'Z' || c == '_' }

  predicate IsDigit(c: char) { '0' <= c <= '9' }

  predicate IsCont(c: char) { IsStart(c) || IsDigit(c) }

  function SkipWs(s: string): (r: string)
    ensures |r| <= |s| && r == s[|s| - |r|..]
    ensures r != "" ==> !IsSpace(r[0])
  {
    if s != "" && IsSpace(s[0]) then SkipWs(s[1..]) else s
  }

  /** The length of the run of identifier characters at the front. */
  function RunLength(s: string): (n: nat)
    ensures n <= |s|
    ensures forall k :: 0 <= k < n ==> IsCont(s[k])
    ensures n < |s| ==> !IsCont(s[n])
  {
    if s != "" && IsCont(s[0]) then 1 + RunLength(s[1..]) else 0
  }

  /** An identifier as the parser keeps it: where it starts, and a length cut to eight bits. */
  datatype Ident = Ident(first: char, word: string)

  function ReadIdent(s: string): (r: Option<(Ident, string)>)
    ensures r.Some? ==> |r.value.1| < |s|
  {
    var t := SkipWs(s);
    if t == "" || !IsStart(t[0]) then None
    else
      var n := RunLength(t);
      Some((Ident(t[0], t[..n % 256]), t[n..]))
  }

  /** Consumes one expected character, white space before it in any case. */
  function Consume(s: string, c: char): (r: (bool, string))
    ensures |r.1| <= |s|
    ensures r.0 ==> |r.1| < |s|
  {
    var t := SkipWs(s);
    if t != "" && t[0] == c then (true, t[1..]) else (false, t)
  }

  function Peek(s: string): char { if s == "" then '\0' else s[0] }

  function HexDigit(c: char): Option<nat> {
    if IsDigit(c) then Some(c as nat - '0' as nat)
    else if 'a' <= c <= 'f' then Some(c as nat - 'a' as nat + 10)
    else if 'A' <= c <= 'F' then Some(c as nat - 'A' as nat + 10)
    else None
  }

  /** Digits of a base, accumulated in 32 bits; the flag says whether there was any. */
  function HexRun(s: string, val: nat, some: bool): (r: (nat, bool, string))
    ensures |r.2| <= |s| && (r.1 && !some ==> |r.2| < |s|)
  {
    if s != "" && HexDigit(s[0]).Some?
    then HexRun(s[1..], (val * 16 + HexDigit(s[0]).value) % 0x1_0000_0000, true)
    else (val, some, s)
  }

  function DecRun(s: string, val: nat, some: bool): (r: (nat, bool, string))
    ensures |r.2| <= |s| && (r.1 && !some ==> |r.2| < |s|)
  {
    if s != "" && IsDigit(s[0])
    then DecRun(s[1..], (val * 10 + (s[0] as nat - '0' as nat)) % 0x1_0000_0000, true)
    else (val, some, s)
  }

  /** A decimal or hexadecimal number, cut to 16 bits. */
  function ReadNumber(s: string): (r: Read<nat>)
    ensures r.Ok? ==> r.value < 0x10000 && |r.rest| < |s|
  {
    var t := SkipWs(s);
    var (val, some, rest) :=
      if |t| >= 2 && t[0] == '0' && (t[1] == 'x' || t[1] == 'X') then HexRun(t[2..], 0, false) else DecRun(t, 0, false);
    if some then Ok(val % 0x10000, rest) else Err(BadNumber, rest)
  }

  // ---- Modifiers ----------------------------------------------------------------------

  predicate AllDigits(s: string) { forall i :: 0 <= i < |s| ==> IsDigit(s[i]) }

  /** `prefix` followed by one or more digits. */
  predicate IsParam(s: string, prefix: string) {
    |s| > |prefix| && s[..|prefix|] == prefix && AllDigits(s[|prefix|..])
  }

  /** The digits as a number, None past 16 bits. */
  function DigitsValue(s: string, v: nat): (r: Option<nat>)
    requires AllDigits(s)
    ensures r.Some? && v <= 65535 ==> r.value <= 65535
  {
    if s == "" then Some(v)
    else
      var w := v * 10 + (s[0] as nat - '0' as nat);
      if w > 65535 then None else DigitsValue(s[1..], w)
  }

  function ParamValue(s: string, prefix: string): Option<nat>
    requires IsParam(s, prefix)
  {
    DigitsValue(s[|prefix|..], 0)
  }

  predicate IsKnownModifier(s: string) {
    s == "in" || s == "out" || s == "adc" || s == "up" || s == "down"
    || IsParam(s, "oversample_") || IsParam(s, "sh_") || IsParam(s, "hyst_") || IsParam(s, "debounce_")
  }

  function VirtLookup(s: string): Option<nat> {
    if s == "_t_since_m2s" then Some(VIRT_T_SINCE_M2S)
    else if s == "_uptime" then Some(VIRT_UPTIME)
    else if s == "_stack_hwm" then Some(VIRT_STACK_HWM)
    else None
  }

  function SampleExp(n: nat): Option<nat> {
    match n
    case 1 => Some(0)
    case 2 => Some(1)
    case 4 => Some(2)
    case 8 => Some(3)
    case 16 => Some(4)
    case _ => None
  }

  // ---- cfg[...] -----------------------------------------------------------------------

  /** What the modifiers of a pin group amount to. */
  datatype Group =
    | GpioGroup(mode: PinMode, debounce: nat)
    | AdcGroup(oversample: nat, shCyc: nat, hyst: nat)
    | OutGroup(openDrain: nat)

  datatype Result<T> = Good(value: T) | Bad(status: Status)

  function FirstModifier(m: string): Result<Group> {
    if m == "in" then Good(GpioGroup(In, 0))
    else if m == "out" then Good(OutGroup(0))
    else if m == "oc" then Good(OutGroup(1))
    else if m == "adc" then Good(AdcGroup(0, 4, 0))
    else Bad(UnknownMode)
  }

  function Qualify(g: Group, m: string): Result<Group> {
    match g
    case AdcGroup(o, sh, h) =>
      if IsParam(m, "oversample_") then
        var n := ParamValue(m, "oversample_");
        if n.None? || SampleExp(n.value).None? then Bad(OversampleOutOfRange)
        else Good(AdcGroup(SampleExp(n.value).value, sh, h))
      else if IsParam(m, "sh_") then
        var n := ParamValue(m, "sh_");
        if n.None? || n.value > 63 then Bad(ShOutOfRange) else Good(AdcGroup(o, n.value, h))
      else if IsParam(m, "hyst_") then
        var n := ParamValue(m, "hyst_");
        if n.None? then Bad(ThresholdOutOfRange) else Good(AdcGroup(o, sh, n.value))
      else if IsParam(m, "debounce_") then Bad(DebounceNotOnGpio)
      else Bad(UnknownMode)
    case GpioGroup(mode, d) =>
      if m == "up" then Good(GpioGroup(InUp, d))
      else if m == "down" then Good(GpioGroup(InDown, d))
      else if IsParam(m, "debounce_") then
        var n := ParamValue(m, "debounce_");
        if n.None? || n.value < 2 || n.value > 15 then Bad(DebounceOutOfRange) else Good(GpioGroup(mode, n.value))
      else if IsParam(m, "hyst_") then Bad(HystNotOnAdc)
      else if IsParam(m, "oversample_") || IsParam(m, "sh_") then Bad(ModifierOnGpio)
      else Bad(UnknownMode)
    case OutGroup(od) =>
      if od != 0 && m == "up" then Good(OutGroup(2))
      else if IsParam(m, "hyst_") then Bad(HystNotOnAdc)
      else if IsParam(m, "debounce_") then Bad(DebounceNotOnGpio)
      else if IsParam(m, "oversample_") || IsParam(m, "sh_") then Bad(ModifierOnGpio)
      else Bad(UnknownMode)
  }

  function QualifyAll(g: Group, mods: seq<string>): Result<Group>
    decreases |mods|
  {
    if mods == [] then Good(g)
    else
      var q := Qualify(g, mods[0]);
      if q.Bad? then q else QualifyAll(q.value, mods[1..])
  }

  function Resolve(mods: seq<string>): Result<Group>
    requires mods != []
  {
    var g := FirstModifier(mods[0]);
    if g.Bad? then g else QualifyAll(g.value, mods[1..])
  }

  function InputFrom(inputs: seq<Input>, phys: nat, i: nat): (r: int)
    requires i <= |inputs|
    ensures -1 <= r < |inputs|
    ensures r >= 0 ==> i <= r && inputs[r].phys == phys && forall k :: i <= k < r ==> inputs[k].phys != phys
    ensures r < 0 ==> forall k :: i <= k < |inputs| ==> inputs[k].phys != phys
    decreases |inputs| - i
  {
    if i == |inputs| then -1 else if inputs[i].phys == phys then i else InputFrom(inputs, phys, i + 1)
  }

  function FindInput(inst: Inst, phys: nat): int { InputFrom(inst.inputs, phys, 0) }

  function OutputFrom(outputs: seq<Output>, phys: nat, i: nat): (r: int)
    requires i <= |outputs|
    ensures -1 <= r < |outputs|
    ensures r >= 0 ==> i <= r && outputs[r].phys == phys && forall k :: i <= k < r ==> outputs[k].phys != phys
    ensures r < 0 ==> forall k :: i <= k < |outputs| ==> outputs[k].phys != phys
    decreases |outputs| - i
  {
    if i == |outputs| then -1 else if outputs[i].phys == phys then i else OutputFrom(outputs, phys, i + 1)
  }

  function FindOutput(inst: Inst, phys: nat): int { OutputFrom(inst.outputs, phys, 0) }

  function GroupInput(g: Group, phys: nat): Input
    requires !g.OutGroup?
  {
    match g
    case GpioGroup(mode, d) => Input(phys, mode, 0, 0, d, 0)
    case AdcGroup(o, sh, h) => Input(phys, Adc, o, sh, 0, h)
  }

  function RecordPin(inst: Inst, g: Group, word: string): Result<Inst> {
    var bp := Lookup(word);
    if bp.None? then Bad(UnknownPin)
    else
      var phys := PhysId(bp.value);
      if FindInput(inst, phys) >= 0 || FindOutput(inst, phys) >= 0 then Bad(DuplicatePin)
      else if g.OutGroup? then
        if |inst.outputs| >= MAX_OUTPUTS then Bad(TooManyOutputs)
        else Good(inst.(outputs := inst.outputs + [Output(phys, 0, 0, g.openDrain)]))
      else
        if |inst.inputs| >= MAX_INPUTS then Bad(TooManyInputs)
        else Good(inst.(inputs := inst.inputs + [GroupInput(g, phys)]))
  }

  function RecordPins(inst: Inst, g: Group, labels: seq<string>): Result<Inst>
    decreases |labels|
  {
    if labels == [] then Good(inst)
    else
      var r := RecordPin(inst, g, labels[0]);
      if r.Bad? then r else RecordPins(r.value, g, labels[1..])
  }

  /** The pins of a parenthesised group, after the opening parenthesis. */
  function PinList(s: string, labels: seq<string>): (r: Read<seq<string>>)
    ensures r.Ok? ==> |r.rest| < |s|
    decreases |s|
  {
    if |labels| >= MAX_INPUTS + MAX_OUTPUTS then Err(TooManyInputs, s)
    else
      var id := ReadIdent(s);
      if id.None? then Err(UnexpectedChar, SkipWs(s))
      else
        var more := labels + [id.value.0.word];
        var comma := Consume(id.value.1, ',');
        if comma.0 then PinList(comma.1, more)
        else
          var close := Consume(comma.1, ')');
          if close.0 then Ok(more, close.1) else Err(UnexpectedChar, close.1)
  }

  function Pins(s: string): (r: Read<seq<string>>)
    ensures r.Ok? ==> |r.rest| < |s|
  {
    var open := Consume(s, '(');
    if open.0 then PinList(open.1, [])
    else
      var id := ReadIdent(open.1);
      if id.None? then Err(UnexpectedChar, SkipWs(open.1)) else Ok([id.value.0.word], id.value.1)
  }

  /** Whether a modifier follows the comma before t; otherwise the comma separates pin groups. */
  predicate ModifierFollows(t: string) {
    Peek(t) != '(' && IsStart(Peek(t)) && ReadIdent(t).Some? && IsKnownModifier(ReadIdent(t).value.0.word)
  }

  function ModList(s: string, mods: seq<string>): (r: Read<seq<string>>)
    ensures r.Ok? ==> |r.rest| < |s| && |r.value| > |mods|
    decreases |s|
  {
    if |mods| >= 4 then Err(UnknownMode, s)
    else
      var id := ReadIdent(s);
      if id.None? then Err(UnexpectedChar, SkipWs(s))
      else
        var more := mods + [id.value.0.word];
        var comma := Consume(id.value.1, ',');
        if !comma.0 then Ok(more, comma.1)
        else
          var t := SkipWs(comma.1);
          if ModifierFollows(t) then ModList(t, more) else Ok(more, id.value.1)
  }

  function CfgGroup(s: string, inst: Inst): (r: Read<Inst>)
    ensures r.Ok? ==> |r.rest| < |s|
  {
    var pins := Pins(SkipWs(s));
    if pins.Err? then Err(pins.status, pins.at)
    else
      var colon := Consume(pins.rest, ':');
      if !colon.0 then Err(UnexpectedChar, colon.1)
      else
        var mods := ModList(colon.1, []);
        if mods.Err? then Err(mods.status, mods.at)
        else
          var g := Resolve(mods.value);
          if g.Bad? then Err(g.status, mods.rest)
          else
            var rec := RecordPins(inst, g.value, pins.value);
            if rec.Bad? then Err(rec.status, mods.rest) else Ok(rec.value, mods.rest)
  }

  function ParseCfg(s: string, inst: Inst): (r: Read<Inst>)
    ensures r.Ok? ==> |r.rest| < |s|
    decreases |s|
  {
    var g := CfgGroup(s, inst);
    if g.Err? then g
    else
      var comma := Consume(g.rest, ',');
      if comma.0 then ParseCfg(comma.1, g.value) else Ok(g.value, comma.1)
  }

  // ---- watch[...] ---------------------------------------------------------------------

  function OpOf(s: string): Option<Op> {
    if s == "eq" then Some(Eq)
    else if s == "ne" then Some(Ne)
    else if s == "lt" then Some(Lt)
    else if s == "gt" then Some(Gt)
    else if s == "le" then Some(Le)
    else if s == "ge" then Some(Ge)
    else None
  }

  /** The operator of a clause and its colon, when a letter follows; otherwise equality is meant. */
  function Operator(t: string): (r: Read<Op>)
    ensures r.Ok? ==> |r.rest| <= |t|
  {
    if IsStart(Peek(t)) then
      var id := ReadIdent(t);
      if id.None? then Err(UnexpectedChar, t)
      else if OpOf(id.value.0.word).None? then Err(UnknownOp, id.value.1)
      else
        var colon := Consume(id.value.1, ':');
        if !colon.0 then Err(UnexpectedChar, colon.1) else Ok(OpOf(id.value.0.word).value, colon.1)
    else Ok(Eq, t)
  }

  datatype Cmp = Cmp(op: Op, threshold: nat)

  /** The comparison of a clause, after the first colon: `op:value`, or `value` alone for equality. */
  function Comparison(s: string): (r: Read<Cmp>)
    ensures r.Ok? ==> |r.rest| < |s| && r.value.threshold < 0x10000
  {
    var op := Operator(SkipWs(s));
    if op.Err? then Err(op.status, op.at)
    else
      var n := ReadNumber(op.rest);
      if n.Err? then Err(n.status, n.at) else Ok(Cmp(op.value, n.value), n.rest)
  }

  /** The input a clause refers to; a virtual input is declared on first use. */
  function Operand(inst: Inst, id: Ident): (r: Result<(Inst, nat)>)
    ensures r.Good? ==> r.value.1 < |r.value.0.inputs|
  {
    if id.first == '_' then
      var v := VirtLookup(id.word);
      if v.None? then Bad(UnknownVirtual)
      else if FindInput(inst, v.value) >= 0 then Good((inst, FindInput(inst, v.value)))
      else if |inst.inputs| >= MAX_INPUTS then Bad(TooManyInputs)
      else Good((inst.(inputs := inst.inputs + [Input(v.value, Virtual, 0, 0, 0, 0)]), |inst.inputs|))
    else
      var bp := Lookup(id.word);
      if bp.None? then Bad(UnknownPin)
      else if FindInput(inst, PhysId(bp.value)) < 0 then Bad(WatchInputUndecl)
      else Good((inst, FindInput(inst, PhysId(bp.value))))
  }

  function AddWatch(inst: Inst, id: Ident, op: Op, threshold: nat, group: nat): Result<Inst> {
    var operand := Operand(inst, id);
    if operand.Bad? then Bad(operand.status)
    else
      var (declared, i) := operand.value;
      if declared.inputs[i].hyst != 0 && (op == Eq || op == Ne) then Bad(HystOnEqNe)
      else if |declared.watches| >= MAX_WATCHES then Bad(TooManyWatches)
      else Good(declared.(watches := declared.watches + [Watch(i, op, threshold, group)]))
  }

  function Clause(s: string, inst: Inst, group: nat): (r: Read<Inst>)
    ensures r.Ok? ==> |r.rest| < |s|
  {
    var id := ReadIdent(s);
    if id.None? then Err(UnexpectedChar, SkipWs(s))
    else
      var colon := Consume(id.value.1, ':');
      if !colon.0 then Err(UnexpectedChar, colon.1)
      else
        var cmp := Comparison(colon.1);
        if cmp.Err? then Err(cmp.status, cmp.at)
        else
          var w := AddWatch(inst, id.value.0, cmp.value.op, cmp.value.threshold, group);
          if w.Bad? then Err(w.status, cmp.rest) else Ok(w.value, cmp.rest)
  }

  function ParseWatch(s: string, inst: Inst, group: nat): (r: Read<Inst>)
    ensures r.Ok? ==> |r.rest| < |s|
    decreases |s|
  {
    var c := Clause(s, inst, group);
    if c.Err? then c
    else
      var comma := Consume(c.rest, ',');
      if comma.0 then ParseWatch(comma.1, c.value, group)
      else
        var bar := Consume(comma.1, '|');
        if bar.0 then ParseWatch(bar.1, c.value, (group + 1) % 256) else Ok(c.value, bar.1)
  }

  // ---- out_ok[...] and out_err[...] ---------------------------------------------------

  function SetValue(o: Output, isOk: bool, v: nat): Output {
    if isOk then o.(okValue := v) else o.(errValue := v)
  }

  function OutValue(s: string, inst: Inst, isOk: bool): (r: Read<Inst>)
    ensures r.Ok? ==> |r.rest| < |s|
  {
    var id := ReadIdent(s);
    if id.None? then Err(UnexpectedChar, SkipWs(s))
    else
      var colon := Consume(id.value.1, ':');
      if !colon.0 then Err(UnexpectedChar, colon.1)
      else
        var n := ReadNumber(colon.1);
        if n.Err? then Err(n.status, n.at)
        else if n.value > 1 then Err(BadNumber, n.rest)
        else
          var bp := Lookup(id.value.0.word);
          if bp.None? then Err(UnknownPin, n.rest)
          else
            var i := FindOutput(inst, PhysId(bp.value));
            if i < 0 then Err(OutputUndecl, n.rest)
            else Ok(inst.(outputs := inst.outputs[i := SetValue(inst.outputs[i], isOk, n.value)]), n.rest)
  }

  function ParseOut(s: string, inst: Inst, isOk: bool): (r: Read<Inst>)
    ensures r.Ok? ==> |r.rest| < |s|
    decreases |s|
  {
    var o := OutValue(s, inst, isOk);
    if o.Err? then o
    else
      var comma := Consume(o.rest, ',');
      if comma.0 then ParseOut(comma.1, o.value, isOk) else Ok(o.value, comma.1)
  }

  // ---- The whole message --------------------------------------------------------------

  /** The instance so far, and which output sections have been read. */
  datatype Progress = Progress(inst: Inst, seenOk: bool, seenErr: bool)

  function Body(kw: string, s: string, p: Progress): (r: Read<Progress>)
    ensures r.Ok? ==> |r.rest| < |s|
  {
    if kw == "cfg" then
      var c := ParseCfg(s, p.inst);
      if c.Err? then Err(c.status, c.at) else Ok(p.(inst := c.value), c.rest)
    else if kw == "watch" then
      var w := ParseWatch(s, p.inst, 0);
      if w.Err? then Err(w.status, w.at) else Ok(p.(inst := w.value), w.rest)
    else if kw == "out_ok" then
      var o := ParseOut(s, p.inst, true);
      if o.Err? then Err(o.status, o.at) else Ok(p.(inst := o.value, seenOk := true), o.rest)
    else if kw == "out_err" then
      var o := ParseOut(s, p.inst, false);
      if o.Err? then Err(o.status, o.at) else Ok(p.(inst := o.value, seenErr := true), o.rest)
    else Err(UnknownKeyword, s)
  }

  /** One section, after its semicolon. */
  function Section(s: string, p: Progress): (r: Read<Progress>)
    ensures r.Ok? ==> |r.rest| < |s|
  {
    var id := ReadIdent(s);
    if id.None? then Err(UnexpectedChar, SkipWs(s))
    else
      var open := Consume(id.value.1, '[');
      if !open.0 then Err(UnexpectedChar, open.1)
      else
        var b := Body(id.value.0.word, open.1, p);
        if b.Err? then b
        else
          var close := Consume(b.rest, ']');
          if !close.0 then Err(UnexpectedChar, close.1) else Ok(b.value, close.1)
  }

  function Sections(s: string, p: Progress): (r: Read<Progress>)
    ensures r.Ok? ==> |r.rest| <= |s|
    decreases |s|
  {
    var semi := Consume(s, ';');
    if !semi.0 then Ok(p, semi.1)
    else
      var sec := Section(semi.1, p);
      if sec.Err? then sec else Sections(sec.rest, sec.value)
  }

  /** The outcome of a parse; `at` is where in the text the error was noticed, when that is told. */
  datatype Outcome = Parsed(inst: Inst) | Failed(status: Status, at: Option<nat>)

  function FinalCheck(p: Progress): Outcome {
    var os := p.inst.outputs;
    if os != [] && !p.seenOk then Failed(MissingOutOk, None)
    else if os != [] && !p.seenErr then Failed(MissingOutErr, None)
    else if exists i :: 0 <= i < |os| && os[i].okValue == os[i].errValue then Failed(OutputValueMismatch, None)
    else Parsed(p.inst.(tf := Unevaluated))
  }

  function Offset(text: string, at: string): Option<nat> {
    Some(if |at| <= |text| then |text| - |at| else 0)
  }

  function Parse(text: string): Outcome {
    if text == "" then Failed(Empty, None)
    else
      var id := ReadIdent(text);
      if id.None? then Failed(UnexpectedChar, Offset(text, SkipWs(text)))
      else if |id.value.0.word| >= NAME_MAX then Failed(NameTooLong, Offset(text, id.value.1))
      else
        var start := Progress(Inst(id.value.0.word, [], [], [], Unevaluated), false, false);
        var secs := Sections(id.value.1, start);
        if secs.Err? then Failed(secs.status, Offset(text, secs.at))
        else
          var rest := SkipWs(secs.rest);
          if rest != "" then Failed(UnexpectedChar, Offset(text, rest)) else FinalCheck(secs.value)
  }
}
