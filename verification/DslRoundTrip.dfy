/** Printing a canonical instance and parsing the text gives the instance back. */
module DslRoundTrip {
  import opened BoardPins
  import opened Dsl
  import opened DslSoundness
  import opened DslPrint
  import opened DslTokens
  import opened DslCfgTrip
  import opened DslPinsTrip
  import opened DslWatchTrip
  import P = DslParser

  // ---- out_ok[...] and out_err[...] ---------------------------------------------------

  /** The outputs once the good levels of the first a and the error levels of the first b are read. */
  function Levels(outs: seq<Output>, a: nat, b: nat): (r: seq<Output>)
    ensures |r| == |outs|
    ensures forall j :: 0 <= j < |outs| ==> r[j].phys == outs[j].phys
  {
    seq(|outs|, j requires 0 <= j < |outs| =>
      Output(outs[j].phys, if j < a then outs[j].okValue else 0, if j < b then outs[j].errValue else 0,
             outs[j].openDrain))
  }

  function OutState(inst: Inst, a: nat, b: nat): Inst {
    inst.(outputs := Levels(inst.outputs, a, b)).(tf := Unevaluated)
  }

  lemma OutPhase(outs: seq<Output>, isOk: bool, i: nat)
    requires i < |outs|
    ensures var (a, b) := if isOk then (i, 0) else (|outs|, i);
      var q := Levels(outs, a, b);
      q[i := SetValue(q[i], isOk, LevelOf(outs[i], isOk))] ==
        if isOk then Levels(outs, i + 1, 0) else Levels(outs, |outs|, i + 1)
  {
  }

  /** The state before level number i of a section is read. */
  function Phase(inst: Inst, isOk: bool, i: nat): Inst {
    if isOk then OutState(inst, i, 0) else OutState(inst, |inst.outputs|, i)
  }

  lemma {:induction false} OutputFound(outs: seq<Output>, i: nat, j: nat)
    requires j <= i < |outs| && forall a, b :: 0 <= a < b < |outs| ==> outs[a].phys != outs[b].phys
    ensures OutputFrom(outs, outs[i].phys, j) == i
    decreases i - j
  {
    if j < i {
      assert outs[j].phys != outs[i].phys;
      OutputFound(outs, i, j + 1);
    }
  }

  lemma OutFacts(inst: Inst, i: nat)
    requires Canonical(inst) && i < |inst.outputs|
    ensures var o := inst.outputs[i];
      && OnBoard(o.phys) && o.okValue <= 1 && o.errValue <= 1
      && forall a, b :: 0 <= a < b < |inst.outputs| ==> inst.outputs[a].phys != inst.outputs[b].phys
  {
    assert PinsDistinct(inst) && OutputOk(inst.outputs[i]);
    hide InputOk, WatchOk, Word, DeclaredBy, Physical, OnBoard;
  }

  lemma PhaseFind(inst: Inst, isOk: bool, i: nat)
    requires Canonical(inst) && i < |inst.outputs|
    ensures FindOutput(Phase(inst, isOk, i), inst.outputs[i].phys) == i
  {
    OutFacts(inst, i);
    var outs := Phase(inst, isOk, i).outputs;
    hide Canonical, OutputFrom, OnBoard;
    OutputFound(outs, i, 0);
  }

  lemma PhaseNext(inst: Inst, isOk: bool, i: nat)
    requires i < |inst.outputs|
    ensures var q := Phase(inst, isOk, i);
      && |q.outputs| == |inst.outputs|
      && q.(outputs := q.outputs[i := SetValue(q.outputs[i], isOk, LevelOf(inst.outputs[i], isOk))]) ==
         Phase(inst, isOk, i + 1)
  {
    OutPhase(inst.outputs, isOk, i);
    hide Levels, SetValue, LevelOf;
  }

  lemma OutParts(s: string, inst: Inst, isOk: bool, id: Ident, a: string, b: string, v: nat, k: string, i: nat,
                 next: Inst)
    requires ReadIdent(s) == Some((id, a)) && Consume(a, ':') == (true, b) && ReadNumber(b) == Ok(v, k) && v <= 1
    requires Lookup(id.word).Some? && FindOutput(inst, PhysId(Lookup(id.word).value)) == i < |inst.outputs|
    requires next == inst.(outputs := inst.outputs[i := SetValue(inst.outputs[i], isOk, v)])
    ensures OutValue(s, inst, isOk) == Ok(next, k)
  {
    hide ReadIdent, Consume, ReadNumber, Lookup, FindOutput, PhysId, SetValue;
  }

  lemma LevelBit(o: Output, isOk: bool)
    requires o.okValue <= 1 && o.errValue <= 1
    ensures LevelOf(o, isOk) <= 1
  {
  }

  lemma LevelRead(inst: Inst, isOk: bool, i: nat, k: string)
    requires Canonical(inst) && i < |inst.outputs| && Ends(k)
    ensures OutValue(LabelOf(inst.outputs[i].phys) + (":" + (Dec(LevelOf(inst.outputs[i], isOk)) + k)),
                     Phase(inst, isOk, i), isOk) ==
      Ok(Phase(inst, isOk, i + 1), k)
  {
    hide *;
    var o := inst.outputs[i];
    OutFacts(inst, i);
    var n, v := LabelOf(o.phys), LevelOf(o, isOk);
    LabelWord(o.phys);
    LabelRoundTrip(o.phys);
    LevelBit(o, isOk);
    var d := Dec(v) + k;
    Comma(d);
    WordRead(n, ":" + d);
    CommaNoSpace();
    Hit(':', d);
    NumberRead(v, k);
    PhaseFind(inst, isOk, i);
    PhaseNext(inst, isOk, i);
    OutParts(n + (":" + d), Phase(inst, isOk, i), isOk, Ident(n[0], n), ":" + d, d, v, k, i, Phase(inst, isOk, i + 1));
  }

  lemma OutTextStep(outs: seq<Output>, isOk: bool, i: nat, k: string)
    requires i < |outs|
    ensures OutText(outs, isOk, i, k) ==
      if i + 1 == |outs| then LabelOf(outs[i].phys) + (":" + (Dec(LevelOf(outs[i], isOk)) + k))
      else LabelOf(outs[i].phys) + (":" + (Dec(LevelOf(outs[i], isOk)) + ("," + OutText(outs, isOk, i + 1, k))))
  {
    hide LabelOf, Dec, LevelOf;
  }

  lemma OutNext(inst: Inst, isOk: bool, i: nat, k: string)
    requires Canonical(inst) && i + 1 < |inst.outputs|
    ensures ParseOut(OutText(inst.outputs, isOk, i, k), Phase(inst, isOk, i), isOk) ==
      ParseOut(OutText(inst.outputs, isOk, i + 1, k), Phase(inst, isOk, i + 1), isOk)
  {
    hide *;
    var rest := OutText(inst.outputs, isOk, i + 1, k);
    OutTextStep(inst.outputs, isOk, i, k);
    Comma(rest);
    LevelRead(inst, isOk, i, "," + rest);
    CommaNoSpace();
    Hit(',', rest);
    P.OutStep(OutText(inst.outputs, isOk, i, k), Phase(inst, isOk, i), isOk);
  }

  lemma OutLast(inst: Inst, isOk: bool, i: nat, k: string)
    requires Canonical(inst) && i + 1 == |inst.outputs|
    ensures ParseOut(OutText(inst.outputs, isOk, i, "]" + k), Phase(inst, isOk, i), isOk) ==
      Ok(Phase(inst, isOk, i + 1), "]" + k)
  {
    hide *;
    OutTextStep(inst.outputs, isOk, i, "]" + k);
    Comma(k);
    LevelRead(inst, isOk, i, "]" + k);
    CommaNoSpace();
    Miss("]" + k, ',');
    P.OutStep(OutText(inst.outputs, isOk, i, "]" + k), Phase(inst, isOk, i), isOk);
  }

  /** An output section is read back from level i on. */
  lemma {:induction false} OutRead(inst: Inst, isOk: bool, i: nat, k: string)
    requires Canonical(inst) && i < |inst.outputs|
    ensures ParseOut(OutText(inst.outputs, isOk, i, "]" + k), Phase(inst, isOk, i), isOk) ==
      Ok(Phase(inst, isOk, |inst.outputs|), "]" + k)
    decreases |inst.outputs| - i
  {
    hide *;
    if i + 1 == |inst.outputs| {
      OutLast(inst, isOk, i, k);
    } else {
      OutNext(inst, isOk, i, "]" + k);
      OutRead(inst, isOk, i + 1, k);
    }
  }

  // ---- Sections -----------------------------------------------------------------------

  lemma SectionParts(s: string, p: Progress, id: Ident, a: string, b: string, q: Progress, c: string, k: string)
    requires ReadIdent(s) == Some((id, a)) && Consume(a, '[') == (true, b) && Body(id.word, b, p) == Ok(q, c)
    requires Consume(c, ']') == (true, k)
    ensures Section(s, p) == Ok(q, k)
  {
    hide ReadIdent, Consume, Body;
  }

  /** A section whose body is read back is read back. */
  lemma SectionRead(kw: string, body: string, p: Progress, q: Progress, k: string)
    requires Word(kw) && Body(kw, body, p) == Ok(q, "]" + k)
    ensures Sections(";" + (kw + ("[" + body)), p) == Sections(k, q)
  {
    hide *;
    var s := kw + ("[" + body);
    CommaNoSpace();
    Hit(';', s);
    Comma(body);
    WordRead(kw, "[" + body);
    Hit('[', body);
    Hit(']', k);
    SectionParts(s, p, Ident(kw[0], kw), "[" + body, body, q, "]" + k, k);
    P.SectionsStep(";" + s, p);
  }

  lemma Keywords()
    ensures Word("cfg") && Word("watch") && Word("out_ok") && Word("out_err")
  {
  }

  lemma BodyIs(s: string, p: Progress, q: Inst, k: string)
    ensures ParseCfg(s, p.inst) == Ok(q, k) ==> Body("cfg", s, p) == Ok(p.(inst := q), k)
    ensures ParseWatch(s, p.inst, 0) == Ok(q, k) ==> Body("watch", s, p) == Ok(p.(inst := q), k)
    ensures ParseOut(s, p.inst, true) == Ok(q, k) ==> Body("out_ok", s, p) == Ok(p.(inst := q, seenOk := true), k)
    ensures ParseOut(s, p.inst, false) == Ok(q, k) ==> Body("out_err", s, p) == Ok(p.(inst := q, seenErr := true), k)
  {
    hide ParseCfg, ParseWatch, ParseOut;
  }

  lemma CfgSectionRead(st: Style, inst: Inst, k: string)
    requires Canonical(inst)
    ensures Sections(CfgSection(st, inst, k), Progress(CfgState(inst, 0), false, false)) ==
      Sections(k, Progress(CfgState(inst, |PinsOf(inst)|), false, false))
  {
    var n := |PinsOf(inst)|;
    assert WellFormed(inst);
    if n > 0 {
      assert PinsOf(inst)[0..] == PinsOf(inst);
      var body := CfgText(st, PinsOf(inst), "]" + k);
      var p := Progress(CfgState(inst, 0), false, false);
      assert CfgSection(st, inst, k) == ";" + ("cfg" + ("[" + body));
      hide *;
      Keywords();
      CfgRead(st, inst, 0, k);
      BodyIs(body, p, CfgState(inst, n), "]" + k);
      SectionRead("cfg", body, p, Progress(CfgState(inst, n), false, false), k);
    } else {
      hide Sections, CfgState, WellFormed;
    }
  }

  lemma WatchStart(inst: Inst)
    requires Canonical(inst)
    ensures DeclaredBy(inst, 0) <= |inst.inputs| && DeclaredBy(inst, |inst.watches|) <= |inst.inputs|
    ensures CfgState(inst, |PinsOf(inst)|) == WatchState(inst, 0)
    ensures WatchState(inst, |inst.watches|) == OutState(inst, 0, 0)
    ensures inst.watches != [] ==> inst.watches[0].group == 0
  {
    assert inst.inputs[..|inst.inputs|] == inst.inputs && inst.watches[..|inst.watches|] == inst.watches;
    assert inst.outputs[..|inst.outputs|] == inst.outputs;
    assert Blank(inst.outputs) == Levels(inst.outputs, 0, 0);
    hide Accepted, Word, Physical, Blank, Levels;
  }

  lemma WatchSectionRead(st: Style, inst: Inst, k: string)
    requires Canonical(inst) && InputsNamed(inst)
    ensures Sections(WatchSection(st, inst, k), Progress(CfgState(inst, |PinsOf(inst)|), false, false)) ==
      Sections(k, Progress(OutState(inst, 0, 0), false, false))
  {
    WatchStart(inst);
    var n := |inst.watches|;
    if n > 0 {
      var body := WatchText(st, inst, 0, "]" + k);
      var p := Progress(CfgState(inst, |PinsOf(inst)|), false, false);
      assert WatchSection(st, inst, k) == ";" + ("watch" + ("[" + body));
      hide *;
      Keywords();
      WatchRead(st, inst, 0, k);
      BodyIs(body, p, OutState(inst, 0, 0), "]" + k);
      SectionRead("watch", body, p, Progress(OutState(inst, 0, 0), false, false), k);
    } else {
      hide Sections, CfgState, WatchState, OutState, Canonical;
    }
  }

  lemma PhaseEnds(inst: Inst)
    ensures Phase(inst, true, 0) == OutState(inst, 0, 0)
    ensures Phase(inst, false, 0) == Phase(inst, true, |inst.outputs|)
    ensures inst.tf == Unevaluated ==> Phase(inst, false, |inst.outputs|) == inst
    ensures inst.tf == Unevaluated && inst.outputs == [] ==> OutState(inst, 0, 0) == inst
  {
    assert Levels(inst.outputs, |inst.outputs|, |inst.outputs|) == inst.outputs;
  }

  lemma OutSectionRead(inst: Inst, isOk: bool, p: Progress, k: string)
    requires Canonical(inst) && inst.outputs != [] && p.inst == Phase(inst, isOk, 0)
    ensures Sections(";" + ((if isOk then "out_ok" else "out_err") +
                            ("[" + OutText(inst.outputs, isOk, 0, "]" + k))), p) ==
      Sections(k, if isOk then Progress(Phase(inst, isOk, |inst.outputs|), true, p.seenErr)
                  else Progress(Phase(inst, isOk, |inst.outputs|), p.seenOk, true))
  {
    hide *;
    var n := |inst.outputs|;
    var body := OutText(inst.outputs, isOk, 0, "]" + k);
    Keywords();
    OutRead(inst, isOk, 0, k);
    BodyIs(body, p, Phase(inst, isOk, n), "]" + k);
    if isOk {
      SectionRead("out_ok", body, p, Progress(Phase(inst, isOk, n), true, p.seenErr), k);
    } else {
      SectionRead("out_err", body, p, Progress(Phase(inst, isOk, n), p.seenOk, true), k);
    }
  }

  lemma OutSectionsRead(inst: Inst, k: string)
    requires Canonical(inst) && inst.tf == Unevaluated
    ensures Sections(OutSections(inst, k), Progress(OutState(inst, 0, 0), false, false)) ==
      Sections(k, Progress(inst, inst.outputs != [], inst.outputs != []))
  {
    PhaseEnds(inst);
    if inst.outputs != [] {
      var tail := ";" + ("out_err" + ("[" + OutText(inst.outputs, false, 0, "]" + k)));
      assert OutSections(inst, k) == ";" + ("out_ok" + ("[" + OutText(inst.outputs, true, 0, "]" + tail)));
      hide *;
      OutSectionRead(inst, true, Progress(OutState(inst, 0, 0), false, false), tail);
      OutSectionRead(inst, false, Progress(Phase(inst, false, 0), true, false), k);
    } else {
      hide Sections, OutState;
    }
  }

  // ---- The whole message --------------------------------------------------------------

  lemma SectionsStart(st: Style, inst: Inst)
    requires InputsNamed(inst)
    ensures Ends(CfgSection(st, inst, WatchSection(st, inst, OutSections(inst, ""))))
  {
    hide CfgText, WatchText, OutText, PinsOf;
  }

  lemma NothingLeft(p: Progress)
    ensures Sections("", p) == Ok(p, "") && SkipWs("") == ""
  {
  }

  lemma ChecksPass(inst: Inst)
    requires Accepted(inst)
    ensures FinalCheck(Progress(inst, inst.outputs != [], inst.outputs != [])) == Parsed(inst)
  {
    hide WellFormed;
  }

  lemma ParseParts(text: string, id: Ident, a: string, p: Progress, inst: Inst)
    requires text != "" && ReadIdent(text) == Some((id, a)) && |id.word| < NAME_MAX
    requires Sections(a, Progress(Inst(id.word, [], [], [], Unevaluated), false, false)) == Ok(p, "")
    requires FinalCheck(p) == Parsed(inst)
    ensures Parse(text) == Parsed(inst)
  {
    hide ReadIdent, Sections, FinalCheck;
  }

  lemma StartState(inst: Inst)
    ensures CfgState(inst, 0) == Inst(inst.name, [], [], [], Unevaluated)
  {
    assert Blank(inst.outputs[..0]) == [];
  }

  lemma CanonicalName(inst: Inst)
    requires Canonical(inst)
    ensures Word(inst.name) && inst.name != "" && |inst.name| < NAME_MAX && Accepted(inst) && inst.tf == Unevaluated
  {
    hide InputOk, OutputOk, WatchOk, PinsDistinct, DeclaredBy, Physical;
  }

  /** Printing any canonical instance, in any style, and parsing the text gives exactly the instance. */
  lemma ParsePrinted(st: Style, inst: Inst)
    requires Canonical(inst)
    ensures InputsNamed(inst) && Parse(Print(st, inst)) == Parsed(inst)
  {
    CanonicalNamed(inst);
    var outs := OutSections(inst, "");
    var watches := WatchSection(st, inst, outs);
    var a := CfgSection(st, inst, watches);
    assert Print(st, inst) == inst.name + a;
    hide *;
    CanonicalName(inst);
    SectionsStart(st, inst);
    WordRead(inst.name, a);
    StartState(inst);
    CfgSectionRead(st, inst, watches);
    WatchSectionRead(st, inst, outs);
    OutSectionsRead(inst, "");
    var p := Progress(inst, inst.outputs != [], inst.outputs != []);
    NothingLeft(p);
    ChecksPass(inst);
    Parts(inst.name, a);
    ParseParts(inst.name + a, Ident(inst.name[0], inst.name), a, p, inst);
  }
}
