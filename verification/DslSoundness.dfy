/** Whatever the interlock parser accepts is well formed. */
module DslSoundness {
  import opened BoardPins
  import opened Dsl

  /** Time since the last poll, time since start, deepest stack. */
  predicate VirtualId(phys: nat) { phys == 0xF0 || phys == 0xF1 || phys == 0xF2 }

  predicate InputOk(i: Input) {
    match i.mode
    case Virtual => VirtualId(i.phys) && i == Input(i.phys, Virtual, 0, 0, 0, 0)
    case Adc =>
      OnBoard(i.phys) && i.phys < 64 && i.oversample <= 4 && i.shCyc <= 63 && i.debounce == 0 && i.hyst <= 65535
    case _ =>
      OnBoard(i.phys) && i.phys < 64 && i.oversample == 0 && i.shCyc == 0 && i.hyst == 0
      && (i.debounce == 0 || 2 <= i.debounce <= 15)
  }

  predicate OutputOk(o: Output) {
    OnBoard(o.phys) && o.phys < 64 && o.okValue <= 1 && o.errValue <= 1 && o.openDrain <= 2
  }

  predicate Ordered(op: Op) { op != Eq && op != Ne }

  /** Watch number k: its input exists, dead bands go with ordered comparisons only, and groups are
      numbered no faster than watches. */
  predicate WatchOk(inputs: seq<Input>, w: Watch, k: nat) {
    && w.input < |inputs| && w.threshold < 0x10000 && w.group <= k
    && (inputs[w.input].hyst != 0 ==> Ordered(w.op))
  }

  /** No pin is used twice. */
  ghost predicate PinsDistinct(inst: Inst) {
    && (forall i, j :: 0 <= i < j < |inst.inputs| ==> inst.inputs[i].phys != inst.inputs[j].phys)
    && (forall i, j :: 0 <= i < j < |inst.outputs| ==> inst.outputs[i].phys != inst.outputs[j].phys)
    && forall i, j :: 0 <= i < |inst.inputs| && 0 <= j < |inst.outputs| ==> inst.inputs[i].phys != inst.outputs[j].phys
  }

  ghost predicate WellFormed(inst: Inst) {
    && |inst.name| <= 15
    && |inst.inputs| <= 4 && |inst.watches| <= 8 && |inst.outputs| <= 2
    && (forall i :: 0 <= i < |inst.inputs| ==> InputOk(inst.inputs[i]))
    && (forall i :: 0 <= i < |inst.outputs| ==> OutputOk(inst.outputs[i]))
    && (forall k :: 0 <= k < |inst.watches| ==> WatchOk(inst.inputs, inst.watches[k], k))
    && PinsDistinct(inst)
  }

  /** What holds of every accepted instance beyond being well formed along the way. */
  ghost predicate Accepted(inst: Inst) {
    && WellFormed(inst) && inst.tf == Unevaluated
    && forall i :: 0 <= i < |inst.outputs| ==> inst.outputs[i].okValue != inst.outputs[i].errValue
  }

  // ---- Modifiers ----------------------------------------------------------------------

  predicate GroupOk(g: Group) {
    match g
    case GpioGroup(mode, d) => mode in {In, InUp, InDown} && (d == 0 || 2 <= d <= 15)
    case AdcGroup(o, sh, h) => o <= 4 && sh <= 63 && h <= 65535
    case OutGroup(od) => od <= 2
  }

  lemma QualifyOk(g: Group, m: string)
    requires GroupOk(g)
    ensures Qualify(g, m).Good? ==> GroupOk(Qualify(g, m).value)
  {
    hide IsParam, DigitsValue;
  }

  lemma {:induction false} QualifyAllOk(g: Group, mods: seq<string>)
    requires GroupOk(g)
    ensures QualifyAll(g, mods).Good? ==> GroupOk(QualifyAll(g, mods).value)
    decreases |mods|
  {
    hide Qualify;
    if mods != [] {
      QualifyOk(g, mods[0]);
      if Qualify(g, mods[0]).Good? {
        QualifyAllOk(Qualify(g, mods[0]).value, mods[1..]);
      }
    }
  }

  lemma ResolveOk(mods: seq<string>)
    requires mods != []
    ensures Resolve(mods).Good? ==> GroupOk(Resolve(mods).value)
  {
    hide QualifyAll;
    var g := FirstModifier(mods[0]);
    if g.Good? {
      QualifyAllOk(g.value, mods[1..]);
    }
  }

  // ---- Each addition keeps the instance well formed -----------------------------------

  lemma RecordPinOk(inst: Inst, g: Group, w: string)
    requires WellFormed(inst) && GroupOk(g)
    ensures RecordPin(inst, g, w).Good? ==> WellFormed(RecordPin(inst, g, w).value)
  {
    hide Lookup, OnBoard;
    if RecordPin(inst, g, w).Good? {
      LookupOnBoard(w);
    }
  }

  lemma {:induction false} RecordPinsOk(inst: Inst, g: Group, ws: seq<string>)
    requires WellFormed(inst) && GroupOk(g)
    ensures RecordPins(inst, g, ws).Good? ==> WellFormed(RecordPins(inst, g, ws).value)
    decreases |ws|
  {
    hide RecordPin, WellFormed;
    if ws != [] {
      RecordPinOk(inst, g, ws[0]);
      if RecordPin(inst, g, ws[0]).Good? {
        RecordPinsOk(RecordPin(inst, g, ws[0]).value, g, ws[1..]);
      }
    }
  }

  lemma OperandOk(inst: Inst, id: Ident)
    requires WellFormed(inst)
    ensures Operand(inst, id).Good? ==> WellFormed(Operand(inst, id).value.0)
    ensures Operand(inst, id).Good? ==> Operand(inst, id).value.0.watches == inst.watches
  {
    hide Lookup, OnBoard;
    var r := Operand(inst, id);
    if r.Good? {
      var after := r.value.0;
      forall i | 0 <= i < |after.inputs|
        ensures InputOk(after.inputs[i])
        ensures forall j :: 0 <= j < |after.outputs| ==> after.inputs[i].phys != after.outputs[j].phys
      {
        if i < |inst.inputs| {
          assert InputOk(inst.inputs[i]);
        } else {
          assert forall j :: 0 <= j < |inst.outputs| ==> OutputOk(inst.outputs[j]);
        }
      }
      forall k | 0 <= k < |after.watches|
        ensures WatchOk(after.inputs, after.watches[k], k)
      {
        assert WatchOk(inst.inputs, inst.watches[k], k);
      }
    }
  }

  lemma AddWatchOk(inst: Inst, id: Ident, op: Op, threshold: nat, group: nat)
    requires WellFormed(inst) && threshold < 0x10000 && group <= |inst.watches|
    ensures var r := AddWatch(inst, id, op, threshold, group);
      r.Good? ==> WellFormed(r.value) && |r.value.watches| == |inst.watches| + 1
  {
    hide Operand, InputOk, OutputOk;
    OperandOk(inst, id);
  }

  lemma LevelOk(inst: Inst, i: nat, isOk: bool, v: nat)
    requires WellFormed(inst) && i < |inst.outputs| && v <= 1
    ensures WellFormed(inst.(outputs := inst.outputs[i := SetValue(inst.outputs[i], isOk, v)]))
  {
    hide InputOk, WatchOk, OnBoard;
  }

  lemma OutValueOk(s: string, inst: Inst, isOk: bool)
    requires WellFormed(inst)
    ensures OutValue(s, inst, isOk).Ok? ==> WellFormed(OutValue(s, inst, isOk).value)
  {
    hide Lookup, ReadIdent, ReadNumber, Consume, WellFormed, SetValue;
    if OutValue(s, inst, isOk).Ok? {
      var id := ReadIdent(s).value;
      var n := ReadNumber(Consume(id.1, ':').1).value;
      LevelOk(inst, FindOutput(inst, PhysId(Lookup(id.0.word).value)), isOk, n);
    }
  }

  // ---- The section parsers ------------------------------------------------------------

  lemma {:induction false} ParseCfgOk(s: string, inst: Inst)
    requires WellFormed(inst)
    ensures ParseCfg(s, inst).Ok? ==> WellFormed(ParseCfg(s, inst).value)
    decreases |s|
  {
    hide WellFormed, CfgGroup, Consume;
    CfgGroupOk(s, inst);
    var g := CfgGroup(s, inst);
    if g.Ok? && Consume(g.rest, ',').0 {
      ParseCfgOk(Consume(g.rest, ',').1, g.value);
    }
  }

  lemma CfgGroupOk(s: string, inst: Inst)
    requires WellFormed(inst)
    ensures CfgGroup(s, inst).Ok? ==> WellFormed(CfgGroup(s, inst).value)
  {
    hide WellFormed, Pins, ModList, Resolve, RecordPins, Consume;
    var pins := Pins(SkipWs(s));
    if pins.Ok? && Consume(pins.rest, ':').0 {
      var mods := ModList(Consume(pins.rest, ':').1, []);
      if mods.Ok? {
        ResolveOk(mods.value);
        if Resolve(mods.value).Good? {
          RecordPinsOk(inst, Resolve(mods.value).value, pins.value);
        }
      }
    }
  }

  lemma {:induction false} ParseWatchOk(s: string, inst: Inst, group: nat)
    requires WellFormed(inst) && group <= |inst.watches|
    ensures ParseWatch(s, inst, group).Ok? ==> WellFormed(ParseWatch(s, inst, group).value)
    decreases |s|
  {
    hide Clause, Consume, InputOk, OutputOk, WatchOk, PinsDistinct;
    ClauseOk(s, inst, group);
    var c := Clause(s, inst, group);
    if c.Ok? {
      var comma := Consume(c.rest, ',');
      if comma.0 {
        ParseWatchOk(comma.1, c.value, group);
      } else if Consume(comma.1, '|').0 {
        ParseWatchOk(Consume(comma.1, '|').1, c.value, group + 1);
      }
    }
  }

  lemma ClauseOk(s: string, inst: Inst, group: nat)
    requires WellFormed(inst) && group <= |inst.watches|
    ensures var c := Clause(s, inst, group);
      c.Ok? ==> WellFormed(c.value) && |c.value.watches| == |inst.watches| + 1
  {
    hide WellFormed, ReadIdent, Comparison, AddWatch, Consume;
    var id := ReadIdent(s);
    if id.Some? && Consume(id.value.1, ':').0 {
      var cmp := Comparison(Consume(id.value.1, ':').1);
      if cmp.Ok? {
        AddWatchOk(inst, id.value.0, cmp.value.op, cmp.value.threshold, group);
      }
    }
  }

  lemma {:induction false} ParseOutOk(s: string, inst: Inst, isOk: bool)
    requires WellFormed(inst)
    ensures ParseOut(s, inst, isOk).Ok? ==> WellFormed(ParseOut(s, inst, isOk).value)
    decreases |s|
  {
    hide WellFormed, OutValue, Consume;
    OutValueOk(s, inst, isOk);
    var o := OutValue(s, inst, isOk);
    if o.Ok? && Consume(o.rest, ',').0 {
      ParseOutOk(Consume(o.rest, ',').1, o.value, isOk);
    }
  }

  lemma SectionOk(s: string, p: Progress)
    requires WellFormed(p.inst)
    ensures Section(s, p).Ok? ==> WellFormed(Section(s, p).value.inst)
  {
    hide WellFormed, ReadIdent, Consume, ParseCfg, ParseWatch, ParseOut;
    var id := ReadIdent(s);
    if id.Some? && Consume(id.value.1, '[').0 {
      var t := Consume(id.value.1, '[').1;
      ParseCfgOk(t, p.inst);
      ParseWatchOk(t, p.inst, 0);
      ParseOutOk(t, p.inst, true);
      ParseOutOk(t, p.inst, false);
    }
  }

  lemma {:induction false} SectionsOk(s: string, p: Progress)
    requires WellFormed(p.inst)
    ensures Sections(s, p).Ok? ==> WellFormed(Sections(s, p).value.inst)
    decreases |s|
  {
    hide WellFormed, Section, Consume;
    var semi := Consume(s, ';');
    if semi.0 {
      SectionOk(semi.1, p);
      var sec := Section(semi.1, p);
      if sec.Ok? {
        SectionsOk(sec.rest, sec.value);
      }
    }
  }

  lemma BlankOk(name: string)
    requires |name| < NAME_MAX
    ensures WellFormed(Inst(name, [], [], [], Unevaluated))
  {
  }

  lemma FinalCheckOk(p: Progress)
    requires WellFormed(p.inst) && FinalCheck(p).Parsed?
    ensures Accepted(FinalCheck(p).inst)
  {
    hide InputOk, OutputOk, WatchOk;
    var inst, after := p.inst, FinalCheck(p).inst;
    assert after.inputs == inst.inputs && after.watches == inst.watches && after.outputs == inst.outputs;
  }

  lemma ParseWellFormed(text: string)
    ensures Parse(text).Parsed? ==> Accepted(Parse(text).inst)
  {
    hide ReadIdent, Sections, WellFormed, Accepted, SkipWs, FinalCheck;
    if Parse(text).Parsed? {
      var id := ReadIdent(text);
      BlankOk(id.value.0.word);
      var start := Progress(Inst(id.value.0.word, [], [], [], Unevaluated), false, false);
      SectionsOk(id.value.1, start);
      FinalCheckOk(Sections(id.value.1, start).value);
    }
  }

  lemma GroupsBounded(inst: Inst)
    requires WellFormed(inst)
    ensures forall k :: 0 <= k < |inst.watches| ==> inst.watches[k].group < |inst.watches|
  {
    hide InputOk, OutputOk, PinsDistinct;
    forall k | 0 <= k < |inst.watches|
      ensures inst.watches[k].group < |inst.watches|
    {
      assert WatchOk(inst.inputs, inst.watches[k], k);
    }
  }

  /** Every text the parser accepts gives a well-formed instance: counts in bounds, watches on
      declared inputs, distinct pins, outputs with two different levels, dead bands on ordered
      comparisons of analog inputs only, debounce depths 0 or 2 to 15, groups below the number of
      watches. */
  lemma ParseSound(text: string)
    ensures Parse(text).Parsed? ==> Accepted(Parse(text).inst)
    ensures Parse(text).Parsed? ==> forall k :: 0 <= k < |Parse(text).inst.watches| ==>
      Parse(text).inst.watches[k].group < |Parse(text).inst.watches|
  {
    hide Parse, WellFormed;
    ParseWellFormed(text);
    if Parse(text).Parsed? {
      GroupsBounded(Parse(text).inst);
    }
  }
}
