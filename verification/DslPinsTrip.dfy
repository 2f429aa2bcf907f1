/** Reading back the pins of a printed cfg section, one after another. */
module DslPinsTrip {
  import opened BoardPins
  import opened Dsl
  import opened DslSoundness
  import opened DslPrint
  import opened DslTokens
  import opened DslCfgTrip
  import P = DslParser

  // ---- cfg[...] -----------------------------------------------------------------------

  lemma GroupRead(st: Style, p: Pin, inst: Inst, next: Inst, k: string)
    requires PinOk(p) && OnBoard(PinPhys(p)) && Closes(k)
    requires RecordPin(inst, GroupOf(p), LabelOf(PinPhys(p))) == Good(next)
    ensures CfgGroup(GroupText(st, p, k), inst) == Ok(next, k)
  {
    var name, m := LabelOf(PinPhys(p)), ModsText(Mods(st, p), k);
    LabelWord(PinPhys(p));
    ModsOk(st, p);
    PinsRead(st, name, m);
    CommaNoSpace();
    Hit(':', m);
    ModListRead(Mods(st, p), [], k);
    assert [] + Mods(st, p) == Mods(st, p);
    OneLabel(inst, GroupOf(p), name);
    var t := GroupText(st, p, k);
    hide *;
    GroupParts(t, inst, [name], ":" + m, m, Mods(st, p), k, GroupOf(p), next);
    GroupTextIs(st, p, k);
  }

  lemma GroupTextIs(st: Style, p: Pin, k: string)
    ensures GroupText(st, p, k) == PinText(st, LabelOf(PinPhys(p)), ModsText(Mods(st, p), k))
  {
    hide LabelOf, PinText, ModsText;
  }

  lemma OneLabel(inst: Inst, g: Group, name: string)
    ensures RecordPins(inst, g, [name]) == RecordPin(inst, g, name)
  {
    assert [name][1..] == [];
    hide RecordPin;
  }

  lemma GroupParts(t: string, inst: Inst, labels: seq<string>, a: string, b: string, mods: seq<string>, k: string,
                   g: Group, next: Inst)
    requires SkipWs(t) == t && Pins(t) == Ok(labels, a) && Consume(a, ':') == (true, b)
    requires ModList(b, []) == Ok(mods, k) && mods != [] && Resolve(mods) == Good(g)
    requires RecordPins(inst, g, labels) == Good(next)
    ensures CfgGroup(t, inst) == Ok(next, k)
  {
    hide SkipWs, Pins, Consume, ModList, Resolve, RecordPins;
  }

  function Blank(outs: seq<Output>): (r: seq<Output>)
    ensures |r| == |outs| && forall j :: 0 <= j < |outs| ==> r[j] == outs[j].(okValue := 0, errValue := 0)
  {
    seq(|outs|, j requires 0 <= j < |outs| => outs[j].(okValue := 0, errValue := 0))
  }

  /** The instance once the first i printed pins are read. */
  function CfgState(inst: Inst, i: nat): Inst
    requires i <= |PinsOf(inst)|
  {
    var n := Physical(inst.inputs);
    Inst(inst.name, inst.inputs[..if i < n then i else n], [],
         Blank(inst.outputs[..if i < n then 0 else i - n]), Unevaluated)
  }

  lemma {:induction false} PhysicalAre(xs: seq<Input>, i: nat)
    requires i < Physical(xs)
    ensures xs[i].mode != Virtual
    decreases |xs|
  {
    if i > 0 {
      PhysicalAre(xs[1..], i - 1);
    }
  }

  lemma InputRecords(inst: Inst, i: nat)
    requires WellFormed(inst) && i < Physical(inst.inputs)
    ensures var p := InPin(inst.inputs[i]);
      && PinOk(p) && OnBoard(PinPhys(p))
      && RecordPin(CfgState(inst, i), GroupOf(p), LabelOf(PinPhys(p))) == Good(CfgState(inst, i + 1))
  {
    var x := inst.inputs[i];
    PhysicalAre(inst.inputs, i);
    assert InputOk(x) && |inst.inputs| <= MAX_INPUTS && PinsDistinct(inst);
    InputIs(x);
    LabelRoundTrip(x.phys);
    NotYetInput(inst, i);
    hide *;
    InputAdds(inst, i, LabelOf(x.phys));
  }

  lemma PinsCount(inst: Inst)
    ensures |PinsOf(inst)| == Physical(inst.inputs) + |inst.outputs|
  {
  }

  lemma StateIn(inst: Inst, i: nat)
    requires i < Physical(inst.inputs)
    ensures var q := CfgState(inst, i);
      && q.inputs == inst.inputs[..i] && q.outputs == []
      && CfgState(inst, i + 1) == q.(inputs := q.inputs + [inst.inputs[i]])
  {
    assert inst.inputs[..i] + [inst.inputs[i]] == inst.inputs[..i + 1];
    assert Blank(inst.outputs[..0]) == [];
  }

  lemma StateOut(inst: Inst, j: nat)
    requires j < |inst.outputs|
    ensures var q := CfgState(inst, Physical(inst.inputs) + j);
      && q.inputs == inst.inputs[..Physical(inst.inputs)] && q.outputs == Blank(inst.outputs[..j])
      && CfgState(inst, Physical(inst.inputs) + j + 1) ==
         q.(outputs := q.outputs + [inst.outputs[j].(okValue := 0, errValue := 0)])
  {
    BlankSnoc(inst.outputs, j);
    hide Blank, Physical;
  }

  lemma RecordInput(here: Inst, g: Group, name: string, phys: nat)
    requires !g.OutGroup? && Lookup(name).Some? && PhysId(Lookup(name).value) == phys
    requires FindInput(here, phys) < 0 && FindOutput(here, phys) < 0 && |here.inputs| < MAX_INPUTS
    ensures RecordPin(here, g, name) == Good(here.(inputs := here.inputs + [GroupInput(g, phys)]))
  {
    hide Lookup, FindInput, FindOutput, PhysId, GroupInput;
  }

  lemma RecordOutput(here: Inst, g: Group, name: string, phys: nat)
    requires g.OutGroup? && Lookup(name).Some? && PhysId(Lookup(name).value) == phys
    requires FindInput(here, phys) < 0 && FindOutput(here, phys) < 0 && |here.outputs| < MAX_OUTPUTS
    ensures RecordPin(here, g, name) == Good(here.(outputs := here.outputs + [Output(phys, 0, 0, g.openDrain)]))
  {
    hide Lookup, FindInput, FindOutput, PhysId, GroupInput;
  }

  lemma FindsNothing(here: Inst, phys: nat)
    requires InputFrom(here.inputs, phys, 0) < 0 && OutputFrom(here.outputs, phys, 0) < 0
    ensures FindInput(here, phys) < 0 && FindOutput(here, phys) < 0
  {
  }

  lemma InputAdds(inst: Inst, i: nat, name: string)
    requires i < Physical(inst.inputs) && |inst.inputs| <= MAX_INPUTS
    requires var x := inst.inputs[i]; !GroupOf(InPin(x)).OutGroup? && GroupInput(GroupOf(InPin(x)), x.phys) == x
    requires Lookup(name).Some? && PhysId(Lookup(name).value) == inst.inputs[i].phys
    requires InputFrom(inst.inputs[..i], inst.inputs[i].phys, 0) < 0
    ensures RecordPin(CfgState(inst, i), GroupOf(InPin(inst.inputs[i])), name) == Good(CfgState(inst, i + 1))
  {
    hide *;
    PinsCount(inst);
    var x := inst.inputs[i];
    StateIn(inst, i);
    NoOutputs(x.phys);
    FindsNothing(CfgState(inst, i), x.phys);
    RecordInput(CfgState(inst, i), GroupOf(InPin(x)), name, x.phys);
  }

  lemma NoOutputs(phys: nat)
    ensures OutputFrom([], phys, 0) < 0
  {
  }

  lemma InputIs(x: Input)
    requires InputOk(x) && x.mode != Virtual
    ensures !GroupOf(InPin(x)).OutGroup? && GroupInput(GroupOf(InPin(x)), x.phys) == x
    ensures OnBoard(x.phys) && PinOk(InPin(x)) && PinPhys(InPin(x)) == x.phys
  {
    hide OnBoard;
  }

  lemma NotYetInput(inst: Inst, i: nat)
    requires PinsDistinct(inst) && i < |inst.inputs|
    ensures InputFrom(inst.inputs[..i], inst.inputs[i].phys, 0) < 0
  {
    hide InputFrom;
    var xs := inst.inputs[..i];
    assert forall k :: 0 <= k < |xs| ==> xs[k].phys != inst.inputs[i].phys;
  }

  lemma NotYetOutput(inst: Inst, n: nat, j: nat)
    requires PinsDistinct(inst) && n <= |inst.inputs| && j < |inst.outputs|
    ensures InputFrom(inst.inputs[..n], inst.outputs[j].phys, 0) < 0
    ensures OutputFrom(Blank(inst.outputs[..j]), inst.outputs[j].phys, 0) < 0
  {
    hide InputFrom, OutputFrom;
    var xs, b := inst.inputs[..n], Blank(inst.outputs[..j]);
    assert forall k :: 0 <= k < |xs| ==> xs[k].phys != inst.outputs[j].phys;
    assert forall k :: 0 <= k < |b| ==> b[k].phys == inst.outputs[k].phys && b[k].phys != inst.outputs[j].phys;
  }

  lemma BlankSnoc(outs: seq<Output>, j: nat)
    requires j < |outs|
    ensures Blank(outs[..j]) + [outs[j].(okValue := 0, errValue := 0)] == Blank(outs[..j + 1])
  {
  }

  lemma OutputRecords(inst: Inst, j: nat)
    requires WellFormed(inst) && j < |inst.outputs|
    ensures var p, i := OutPin(inst.outputs[j]), Physical(inst.inputs) + j;
      && PinOk(p) && OnBoard(PinPhys(p))
      && RecordPin(CfgState(inst, i), GroupOf(p), LabelOf(PinPhys(p))) == Good(CfgState(inst, i + 1))
  {
    var o := inst.outputs[j];
    assert OutputOk(o) && PinsDistinct(inst) && |inst.outputs| <= MAX_OUTPUTS;
    LabelRoundTrip(o.phys);
    NotYetOutput(inst, Physical(inst.inputs), j);
    hide WellFormed, PinsDistinct, OnBoard, Lookup, LabelOf, InputFrom, OutputFrom, CfgState, RecordPin;
    OutputAdds(inst, j, LabelOf(o.phys));
  }

  lemma OutputAdds(inst: Inst, j: nat, name: string)
    requires j < |inst.outputs| <= MAX_OUTPUTS
    requires Lookup(name).Some? && PhysId(Lookup(name).value) == inst.outputs[j].phys
    requires InputFrom(inst.inputs[..Physical(inst.inputs)], inst.outputs[j].phys, 0) < 0
    requires OutputFrom(Blank(inst.outputs[..j]), inst.outputs[j].phys, 0) < 0
    ensures var i := Physical(inst.inputs) + j;
      RecordPin(CfgState(inst, i), GroupOf(OutPin(inst.outputs[j])), name) == Good(CfgState(inst, i + 1))
  {
    hide *;
    PinsCount(inst);
    var o := inst.outputs[j];
    StateOut(inst, j);
    OutPinGroup(o);
    FindsNothing(CfgState(inst, Physical(inst.inputs) + j), o.phys);
    RecordOutput(CfgState(inst, Physical(inst.inputs) + j), OutGroup(o.openDrain), name, o.phys);
  }

  lemma OutPinGroup(o: Output)
    ensures GroupOf(OutPin(o)) == OutGroup(o.openDrain)
  {
  }

  lemma PinRecords(inst: Inst, i: nat)
    requires WellFormed(inst) && i < |PinsOf(inst)|
    ensures var p := PinsOf(inst)[i];
      && PinOk(p) && OnBoard(PinPhys(p))
      && RecordPin(CfgState(inst, i), GroupOf(p), LabelOf(PinPhys(p))) == Good(CfgState(inst, i + 1))
  {
    hide WellFormed, CfgState, RecordPin, PinOk, GroupOf, LabelOf, OnBoard;
    if i < Physical(inst.inputs) {
      InputRecords(inst, i);
    } else {
      OutputRecords(inst, i - Physical(inst.inputs));
    }
  }

  /** Another pin after the comma is no modifier. */
  lemma NextPinCloses(st: Style, pins: seq<Pin>, k: string)
    requires pins != [] && OnBoard(PinPhys(pins[0]))
    ensures Closes("," + CfgText(st, pins, k))
  {
    var name := LabelOf(PinPhys(pins[0]));
    LabelWord(PinPhys(pins[0]));
    var t := CfgText(st, pins, k);
    var m :| t == PinText(st, name, m);
    hide CfgText, LabelOf, Word, IsKnownModifier, OnBoard;
    assert name[0] != '(';
    PinNotModifier(st, name, m);
    hide *;
    ClosesComma(t);
  }

  lemma ClosesComma(t: string)
    requires SkipWs(t) == t && !ModifierFollows(t)
    ensures Closes("," + t)
  {
    hide SkipWs, ModifierFollows;
    assert ("," + t)[1..] == t;
  }

  lemma PinNotModifier(st: Style, name: string, m: string)
    requires Word(name) && !IsKnownModifier(name) && name[0] != '('
    ensures var t := PinText(st, name, m); SkipWs(t) == t && !ModifierFollows(t)
  {
    PinsRead(st, name, m);
    Comma(m);
    WordRead(name, ":" + m);
    hide SkipWs, ReadIdent, IsKnownModifier, Word;
  }

  lemma CfgTextStep(st: Style, pins: seq<Pin>, k: string)
    requires pins != []
    ensures CfgText(st, pins, k) ==
      if |pins| == 1 then GroupText(st, pins[0], k) else GroupText(st, pins[0], "," + CfgText(st, pins[1..], k))
  {
  }

  lemma ClosesBracket(k: string)
    ensures Closes("]" + k)
  {
  }

  lemma Tail<T>(s: seq<T>, i: nat)
    requires i < |s|
    ensures s[i..] != [] && s[i..][0] == s[i] && s[i..][1..] == s[i + 1..] && (|s[i..]| == 1 <==> i + 1 == |s|)
  {
  }

  lemma CfgLast(st: Style, pins: seq<Pin>, here: Inst, next: Inst, k: string)
    requires |pins| == 1 && PinOk(pins[0]) && OnBoard(PinPhys(pins[0]))
    requires RecordPin(here, GroupOf(pins[0]), LabelOf(PinPhys(pins[0]))) == Good(next)
    ensures ParseCfg(CfgText(st, pins, "]" + k), here) == Ok(next, "]" + k)
  {
    hide *;
    CfgTextStep(st, pins, "]" + k);
    ClosesBracket(k);
    GroupRead(st, pins[0], here, next, "]" + k);
    CommaNoSpace();
    Miss("]" + k, ',');
    P.CfgStep(CfgText(st, pins, "]" + k), here);
  }

  lemma CfgFirst(st: Style, pins: seq<Pin>, here: Inst, next: Inst, k: string)
    requires |pins| > 1 && PinOk(pins[0]) && OnBoard(PinPhys(pins[0])) && OnBoard(PinPhys(pins[1]))
    requires RecordPin(here, GroupOf(pins[0]), LabelOf(PinPhys(pins[0]))) == Good(next)
    ensures ParseCfg(CfgText(st, pins, k), here) == ParseCfg(CfgText(st, pins[1..], k), next)
  {
    hide *;
    CfgTextStep(st, pins, k);
    NextPinCloses(st, pins[1..], k);
    var rest := CfgText(st, pins[1..], k);
    GroupRead(st, pins[0], here, next, "," + rest);
    CommaNoSpace();
    Hit(',', rest);
    P.CfgStep(CfgText(st, pins, k), here);
  }

  /** The cfg section is read back from pin i on. */
  lemma {:induction false} CfgRead(st: Style, inst: Inst, i: nat, k: string)
    requires WellFormed(inst) && i < |PinsOf(inst)|
    ensures ParseCfg(CfgText(st, PinsOf(inst)[i..], "]" + k), CfgState(inst, i)) ==
      Ok(CfgState(inst, |PinsOf(inst)|), "]" + k)
    decreases |PinsOf(inst)| - i
  {
    hide *;
    Tail(PinsOf(inst), i);
    PinRecords(inst, i);
    if i + 1 < |PinsOf(inst)| {
      PinRecords(inst, i + 1);
      CfgFirst(st, PinsOf(inst)[i..], CfgState(inst, i), CfgState(inst, i + 1), "]" + k);
      CfgRead(st, inst, i + 1, k);
    } else {
      CfgLast(st, PinsOf(inst)[i..], CfgState(inst, i), CfgState(inst, i + 1), k);
    }
  }
}
