/** Reading back printed watch and output sections. */
module DslWatchTrip {
  import opened BoardPins
  import opened Dsl
  import opened DslSoundness
  import opened DslPrint
  import opened DslTokens
  import opened DslCfgTrip
  import opened DslPinsTrip
  import P = DslParser

  // ---- Comparisons --------------------------------------------------------------------

  lemma OpNameRead(op: Op)
    ensures Word(OpName(op)) && OpOf(OpName(op)) == Some(op)
  {
  }

  lemma OperatorLong(op: Op, k: string)
    ensures var t := OpName(op) + (":" + k); SkipWs(t) == t && Operator(t) == Ok(op, k)
  {
    OpNameRead(op);
    var name := OpName(op);
    assert IsStart(name[0]);
    hide OpName, OpOf, Word, ReadIdent, Consume, SkipWs, IsStart, Peek;
    Comma(k);
    WordRead(name, ":" + k);
    CommaNoSpace();
    Hit(':', k);
  }

  lemma OperatorShort(t: string)
    requires IsDigit(Peek(t))
    ensures Operator(t) == Ok(Eq, t)
  {
    hide ReadIdent, Consume;
  }

  lemma ComparisonRead(st: Style, op: Op, threshold: nat, k: string)
    requires threshold < 0x10000 && Ends(k)
    ensures Comparison(ComparisonText(st, op, threshold, k)) == Ok(Cmp(op, threshold), k)
  {
    var t, n := ComparisonText(st, op, threshold, k), Number(st.radix, threshold);
    var short := st.short && op == Eq;
    assert t == if short then n + k else OpName(op) + (":" + (n + k));
    hide *;
    AnyNumberRead(st.radix, threshold, k);
    if short {
      OperatorShort(t);
    } else {
      OperatorLong(op, n + k);
    }
    P.ComparisonStep(t);
  }

  // ---- Operands -----------------------------------------------------------------------

  lemma VirtNameRead(phys: nat)
    requires VirtualId(phys)
    ensures Word(VirtName(phys)) && VirtName(phys)[0] == '_' && VirtLookup(VirtName(phys)) == Some(phys)
  {
  }

  lemma OperandWord(x: Input)
    requires InputOk(x)
    ensures var n := OperandName(x);
      && Word(n) && (n[0] == '_' <==> x.mode == Virtual)
      && (x.mode == Virtual ==> VirtLookup(n) == Some(x.phys))
      && (x.mode != Virtual ==> Lookup(n).Some? && PhysId(Lookup(n).value) == x.phys)
  {
    if x.mode == Virtual {
      VirtNameRead(x.phys);
    } else {
      LabelWord(x.phys);
      LabelRoundTrip(x.phys);
    }
    hide Word, VirtName, LabelOf, VirtLookup, Lookup, PhysId, OnBoard, IsKnownModifier;
  }

  lemma {:induction false} FoundFrom(xs: seq<Input>, i: nat, j: nat)
    requires j <= i < |xs| && forall a, b :: 0 <= a < b < |xs| ==> xs[a].phys != xs[b].phys
    ensures InputFrom(xs, xs[i].phys, j) == i
    decreases i - j
  {
    if j < i {
      assert xs[j].phys != xs[i].phys;
      FoundFrom(xs, i, j + 1);
    }
  }

  lemma {:induction false} DeclaredRises(inst: Inst, j: nat, k: nat)
    requires j <= k <= |inst.watches|
    ensures Physical(inst.inputs) <= DeclaredBy(inst, j) <= DeclaredBy(inst, k)
    decreases k
  {
    if j < k {
      DeclaredRises(inst, j, k - 1);
    } else if k > 0 {
      DeclaredRises(inst, k - 1, k - 1);
    }
  }

  /** The instance once the pins and the first k watches are read. */
  function WatchState(inst: Inst, k: nat): Inst
    requires k <= |inst.watches| && DeclaredBy(inst, k) <= |inst.inputs|
  {
    Inst(inst.name, inst.inputs[..DeclaredBy(inst, k)], inst.watches[..k], Blank(inst.outputs), Unevaluated)
  }

  lemma DeclaredFits(inst: Inst, k: nat)
    requires Canonical(inst) && k <= |inst.watches|
    ensures DeclaredBy(inst, k) <= |inst.inputs|
  {
    hide Accepted, Word;
    DeclaredRises(inst, k, |inst.watches|);
  }

  /** What the watch numbered k needs of a canonical instance. */
  lemma WatchFacts(inst: Inst, k: nat)
    requires Canonical(inst) && k < |inst.watches|
    ensures var w, n := inst.watches[k], DeclaredBy(inst, k);
      && w.input < |inst.inputs| <= MAX_INPUTS && |inst.watches| <= MAX_WATCHES && w.threshold < 0x10000
      && n <= DeclaredBy(inst, k + 1) <= |inst.inputs| && w.input <= n
      && DeclaredBy(inst, k + 1) == (if w.input == n then n + 1 else n)
      && InputOk(inst.inputs[w.input]) && (w.input == n ==> inst.inputs[w.input].mode == Virtual)
      && (inst.inputs[w.input].hyst != 0 ==> w.op != Eq && w.op != Ne)
      && forall a, b :: 0 <= a < b < |inst.inputs| ==> inst.inputs[a].phys != inst.inputs[b].phys
  {
    DeclaredFits(inst, k);
    DeclaredFits(inst, k + 1);
    DeclaredRises(inst, 0, k);
    var w := inst.watches[k];
    assert WatchOk(inst.inputs, w, k) && PinsDistinct(inst);
    hide InputOk, OutputOk, Word, Physical;
  }

  lemma OperandFound(here: Inst, id: Ident, phys: nat)
    requires FindInput(here, phys) >= 0
    requires if id.first == '_' then VirtLookup(id.word) == Some(phys)
             else Lookup(id.word).Some? && PhysId(Lookup(id.word).value) == phys
    ensures Operand(here, id) == Good((here, FindInput(here, phys)))
  {
    hide FindInput, VirtLookup, Lookup, PhysId;
  }

  lemma OperandNew(here: Inst, id: Ident, phys: nat)
    requires id.first == '_' && VirtLookup(id.word) == Some(phys)
    requires FindInput(here, phys) < 0 && |here.inputs| < MAX_INPUTS
    ensures Operand(here, id) ==
      Good((here.(inputs := here.inputs + [Input(phys, Virtual, 0, 0, 0, 0)]), |here.inputs|))
  {
    hide FindInput, VirtLookup;
  }

  lemma StateInputs(inst: Inst, k: nat)
    requires k <= |inst.watches| && DeclaredBy(inst, k) <= |inst.inputs|
    ensures WatchState(inst, k).inputs == inst.inputs[..DeclaredBy(inst, k)]
    ensures forall phys ::
      FindInput(WatchState(inst, k), phys) == InputFrom(inst.inputs[..DeclaredBy(inst, k)], phys, 0)
  {
    hide DeclaredBy, InputFrom, Blank;
  }

  /** A clause finds, or declares, the input it is about. */
  lemma OperandRead(inst: Inst, k: nat)
    requires Canonical(inst) && k < |inst.watches| && DeclaredBy(inst, k) <= |inst.inputs|
    requires DeclaredBy(inst, k + 1) <= |inst.inputs| && inst.watches[k].input < |inst.inputs|
    ensures var x := inst.inputs[inst.watches[k].input];
      var n := OperandName(x);
      && n != ""
      && Operand(WatchState(inst, k), Ident(n[0], n)) ==
         Good((WatchState(inst, k).(inputs := inst.inputs[..DeclaredBy(inst, k + 1)]), inst.watches[k].input))
  {
    var x := inst.inputs[inst.watches[k].input];
    hide *;
    WatchFacts(inst, k);
    if inst.watches[k].input < DeclaredBy(inst, k) {
      OperandOld(inst, k, x);
    } else {
      OperandDeclares(inst, k, x);
    }
  }

  lemma OperandOld(inst: Inst, k: nat, x: Input)
    requires k < |inst.watches| && inst.watches[k].input < DeclaredBy(inst, k) <= |inst.inputs|
    requires DeclaredBy(inst, k + 1) == DeclaredBy(inst, k) && x == inst.inputs[inst.watches[k].input] && InputOk(x)
    requires forall a, b :: 0 <= a < b < |inst.inputs| ==> inst.inputs[a].phys != inst.inputs[b].phys
    ensures var n := OperandName(x);
      && n != ""
      && Operand(WatchState(inst, k), Ident(n[0], n)) ==
         Good((WatchState(inst, k).(inputs := inst.inputs[..DeclaredBy(inst, k + 1)]), inst.watches[k].input))
  {
    OperandWord(x);
    var n := OperandName(x);
    assert n != "";
    hide *;
    StateInputs(inst, k);
    var here := WatchState(inst, k);
    FoundFrom(here.inputs, inst.watches[k].input, 0);
    OperandFound(here, Ident(n[0], n), x.phys);
  }

  lemma OperandDeclares(inst: Inst, k: nat, x: Input)
    requires k < |inst.watches| && inst.watches[k].input == DeclaredBy(inst, k) < |inst.inputs| <= MAX_INPUTS
    requires DeclaredBy(inst, k + 1) == DeclaredBy(inst, k) + 1
    requires x == inst.inputs[inst.watches[k].input] && InputOk(x) && x.mode == Virtual
    requires forall a, b :: 0 <= a < b < |inst.inputs| ==> inst.inputs[a].phys != inst.inputs[b].phys
    ensures var n := OperandName(x);
      && n != ""
      && Operand(WatchState(inst, k), Ident(n[0], n)) ==
         Good((WatchState(inst, k).(inputs := inst.inputs[..DeclaredBy(inst, k + 1)]), inst.watches[k].input))
  {
    OperandWord(x);
    VirtualIs(x);
    var n := OperandName(x);
    assert n != "";
    hide *;
    StateInputs(inst, k);
    var here, d := WatchState(inst, k), DeclaredBy(inst, k);
    NotDeclared(here.inputs, inst.inputs, d);
    OperandNew(here, Ident(n[0], n), x.phys);
    assert here.inputs + [x] == inst.inputs[..d + 1];
  }

  lemma VirtualIs(x: Input)
    requires InputOk(x) && x.mode == Virtual
    ensures x == Input(x.phys, Virtual, 0, 0, 0, 0)
  {
  }

  lemma NotDeclared(xs: seq<Input>, all: seq<Input>, d: nat)
    requires d < |all| && xs == all[..d] && forall a, b :: 0 <= a < b < |all| ==> all[a].phys != all[b].phys
    ensures InputFrom(xs, all[d].phys, 0) < 0
  {
    hide InputFrom;
    assert forall k :: 0 <= k < |xs| ==> xs[k].phys != all[d].phys;
  }

  lemma AddsWatch(here: Inst, id: Ident, w: Watch, declared: Inst)
    requires Operand(here, id) == Good((declared, w.input)) && w.input < |declared.inputs|
    requires declared.inputs[w.input].hyst != 0 ==> w.op != Eq && w.op != Ne
    requires |declared.watches| < MAX_WATCHES
    ensures AddWatch(here, id, w.op, w.threshold, w.group) == Good(declared.(watches := declared.watches + [w]))
  {
    hide Operand;
  }

  lemma StateNext(inst: Inst, k: nat)
    requires k < |inst.watches| && DeclaredBy(inst, k) <= |inst.inputs| && DeclaredBy(inst, k + 1) <= |inst.inputs|
    ensures var q := WatchState(inst, k);
      && |q.watches| == k
      && WatchState(inst, k + 1) ==
         q.(inputs := inst.inputs[..DeclaredBy(inst, k + 1)]).(watches := q.watches + [inst.watches[k]])
  {
    hide DeclaredBy, Blank;
    assert inst.watches[..k] + [inst.watches[k]] == inst.watches[..k + 1];
  }

  lemma WatchAdded(inst: Inst, k: nat)
    requires Canonical(inst) && k < |inst.watches| && DeclaredBy(inst, k) <= |inst.inputs|
    requires DeclaredBy(inst, k + 1) <= |inst.inputs| && inst.watches[k].input < |inst.inputs|
    ensures var w := inst.watches[k];
      var n := OperandName(inst.inputs[w.input]);
      && Word(n) && n != ""
      && AddWatch(WatchState(inst, k), Ident(n[0], n), w.op, w.threshold, w.group) == Good(WatchState(inst, k + 1))
  {
    hide *;
    WatchFacts(inst, k);
    var w := inst.watches[k];
    OperandWord(inst.inputs[w.input]);
    var n := OperandName(inst.inputs[w.input]);
    OperandRead(inst, k);
    StateNext(inst, k);
    AddsWatch(WatchState(inst, k), Ident(n[0], n), w,
              WatchState(inst, k).(inputs := inst.inputs[..DeclaredBy(inst, k + 1)]));
  }

  // ---- Clauses ------------------------------------------------------------------------

  lemma ClauseParts(s: string, inst: Inst, group: nat, id: Ident, a: string, b: string, cmp: Cmp, k: string, next: Inst)
    requires ReadIdent(s) == Some((id, a)) && Consume(a, ':') == (true, b) && Comparison(b) == Ok(cmp, k)
    requires AddWatch(inst, id, cmp.op, cmp.threshold, group) == Good(next)
    ensures Clause(s, inst, group) == Ok(next, k)
  {
    hide ReadIdent, Consume, Comparison, AddWatch;
  }

  lemma ClauseTextIs(st: Style, inputs: seq<Input>, w: Watch, k: string)
    requires w.input < |inputs|
    ensures ClauseText(st, inputs, w, k) ==
      OperandName(inputs[w.input]) + (":" + ComparisonText(st, w.op, w.threshold, k))
  {
    hide OperandName, ComparisonText;
  }

  lemma ClauseRead(st: Style, inst: Inst, k: nat, rest: string)
    requires Canonical(inst) && k < |inst.watches| && Ends(rest)
    requires DeclaredBy(inst, k) <= |inst.inputs| && DeclaredBy(inst, k + 1) <= |inst.inputs|
    requires inst.watches[k].input < |inst.inputs|
    ensures Clause(ClauseText(st, inst.inputs, inst.watches[k], rest), WatchState(inst, k), inst.watches[k].group) ==
      Ok(WatchState(inst, k + 1), rest)
  {
    hide *;
    var w := inst.watches[k];
    WatchFacts(inst, k);
    WatchAdded(inst, k);
    var n, c := OperandName(inst.inputs[w.input]), ComparisonText(st, w.op, w.threshold, rest);
    var t := ClauseText(st, inst.inputs, w, rest);
    ClauseTextIs(st, inst.inputs, w, rest);
    Comma(c);
    WordRead(n, ":" + c);
    CommaNoSpace();
    Hit(':', c);
    ComparisonRead(st, w.op, w.threshold, rest);
    ClauseParts(t, WatchState(inst, k), w.group, Ident(n[0], n), ":" + c, c, Cmp(w.op, w.threshold), rest,
                WatchState(inst, k + 1));
  }

  lemma CanonicalNamed(inst: Inst)
    requires Canonical(inst)
    ensures InputsNamed(inst)
  {
    hide InputOk, OutputOk, PinsDistinct, Word;
    forall j | 0 <= j < |inst.watches|
      ensures inst.watches[j].input < |inst.inputs|
    {
      assert WatchOk(inst.inputs, inst.watches[j], j);
    }
  }

  lemma WatchTextStep(st: Style, inst: Inst, i: nat, k: string)
    requires i < |inst.watches| && InputsNamed(inst)
    ensures WatchText(st, inst, i, k) ==
      if i + 1 == |inst.watches| then ClauseText(st, inst.inputs, inst.watches[i], k)
      else if inst.watches[i + 1].group == inst.watches[i].group
      then ClauseText(st, inst.inputs, inst.watches[i], "," + WatchText(st, inst, i + 1, k))
      else ClauseText(st, inst.inputs, inst.watches[i], "|" + WatchText(st, inst, i + 1, k))
  {
  }

  lemma GroupFacts(inst: Inst, i: nat)
    requires Canonical(inst) && i + 1 < |inst.watches|
    ensures inst.watches[i].group <= inst.watches[i + 1].group <= inst.watches[i].group + 1 < 256
  {
    hide InputOk, OutputOk, PinsDistinct, Word, DeclaredBy, Physical;
    assert WatchOk(inst.inputs, inst.watches[i], i);
  }

  /** Reading on after a clause: at a comma in the same group, */
  lemma ThenComma(s: string, here: Inst, group: nat, next: Inst, k: string)
    requires Clause(s, here, group) == Ok(next, "," + k)
    ensures ParseWatch(s, here, group) == ParseWatch(k, next, group)
  {
    hide *;
    CommaNoSpace();
    Hit(',', k);
    P.WatchStep(s, here, group);
  }

  /** at a bar in the next group, */
  lemma ThenBar(s: string, here: Inst, group: nat, next: Inst, k: string)
    requires group < 255 && Clause(s, here, group) == Ok(next, "|" + k)
    ensures ParseWatch(s, here, group) == ParseWatch(k, next, group + 1)
  {
    hide *;
    CommaNoSpace();
    Miss("|" + k, ',');
    Hit('|', k);
    P.WatchStep(s, here, group);
  }

  /** at a bracket not at all. */
  lemma ThenBracket(s: string, here: Inst, group: nat, next: Inst, k: string)
    requires Clause(s, here, group) == Ok(next, "]" + k)
    ensures ParseWatch(s, here, group) == Ok(next, "]" + k)
  {
    hide *;
    CommaNoSpace();
    Miss("]" + k, ',');
    Miss("]" + k, '|');
    P.WatchStep(s, here, group);
  }

  lemma WatchLast(st: Style, inst: Inst, i: nat, k: string)
    requires Canonical(inst) && i + 1 == |inst.watches| && InputsNamed(inst)
    requires DeclaredBy(inst, i) <= |inst.inputs| && DeclaredBy(inst, i + 1) <= |inst.inputs|
    ensures ParseWatch(WatchText(st, inst, i, "]" + k), WatchState(inst, i), inst.watches[i].group) ==
      Ok(WatchState(inst, i + 1), "]" + k)
  {
    assert inst.watches[i].input < |inst.inputs|;
    hide *;
    GroupBound(inst, i);
    WatchTextStep(st, inst, i, "]" + k);
    Comma(k);
    ClauseRead(st, inst, i, "]" + k);
    ThenBracket(WatchText(st, inst, i, "]" + k), WatchState(inst, i), inst.watches[i].group,
                WatchState(inst, i + 1), k);
  }

  lemma NextSame(st: Style, inst: Inst, i: nat, k: string, group: nat)
    requires Canonical(inst) && i + 1 < |inst.watches| && InputsNamed(inst)
    requires DeclaredBy(inst, i) <= |inst.inputs| && DeclaredBy(inst, i + 1) <= |inst.inputs|
    requires inst.watches[i].input < |inst.inputs| && group == inst.watches[i].group == inst.watches[i + 1].group
    ensures ParseWatch(WatchText(st, inst, i, k), WatchState(inst, i), group) ==
      ParseWatch(WatchText(st, inst, i + 1, k), WatchState(inst, i + 1), group)
  {
    hide *;
    var t, rest := WatchText(st, inst, i, k), WatchText(st, inst, i + 1, k);
    WatchTextStep(st, inst, i, k);
    Comma(rest);
    ClauseRead(st, inst, i, "," + rest);
    ThenComma(t, WatchState(inst, i), group, WatchState(inst, i + 1), rest);
  }

  lemma NextGroup(st: Style, inst: Inst, i: nat, k: string, group: nat)
    requires Canonical(inst) && i + 1 < |inst.watches| && InputsNamed(inst) && group < 255
    requires DeclaredBy(inst, i) <= |inst.inputs| && DeclaredBy(inst, i + 1) <= |inst.inputs|
    requires inst.watches[i].input < |inst.inputs| && group == inst.watches[i].group
    requires inst.watches[i + 1].group == group + 1
    ensures ParseWatch(WatchText(st, inst, i, k), WatchState(inst, i), group) ==
      ParseWatch(WatchText(st, inst, i + 1, k), WatchState(inst, i + 1), group + 1)
  {
    hide *;
    var t, rest := WatchText(st, inst, i, k), WatchText(st, inst, i + 1, k);
    WatchTextStep(st, inst, i, k);
    Comma(rest);
    ClauseRead(st, inst, i, "|" + rest);
    ThenBar(t, WatchState(inst, i), group, WatchState(inst, i + 1), rest);
  }

  lemma WatchNext(st: Style, inst: Inst, i: nat, k: string, g: nat, h: nat)
    requires Canonical(inst) && i + 1 < |inst.watches| && InputsNamed(inst) && inst.watches[i].input < |inst.inputs|
    requires DeclaredBy(inst, i) <= |inst.inputs| && DeclaredBy(inst, i + 1) <= |inst.inputs|
    requires inst.watches[i].group == g <= h == inst.watches[i + 1].group && h <= g + 1 < 256
    ensures ParseWatch(WatchText(st, inst, i, k), WatchState(inst, i), g) ==
      ParseWatch(WatchText(st, inst, i + 1, k), WatchState(inst, i + 1), h)
  {
    hide *;
    if h == g {
      NextSame(st, inst, i, k, g);
    } else {
      NextGroup(st, inst, i, k, g);
    }
  }

  /** The watch section is read back from clause i on. */
  lemma {:induction false} WatchRead(st: Style, inst: Inst, i: nat, k: string)
    requires Canonical(inst) && i < |inst.watches| && InputsNamed(inst)
    requires DeclaredBy(inst, i) <= |inst.inputs| && DeclaredBy(inst, |inst.watches|) <= |inst.inputs|
    ensures ParseWatch(WatchText(st, inst, i, "]" + k), WatchState(inst, i), inst.watches[i].group) ==
      Ok(WatchState(inst, |inst.watches|), "]" + k)
    decreases |inst.watches| - i
  {
    assert inst.watches[i].input < |inst.inputs|;
    hide *;
    DeclaredFits(inst, i + 1);
    if i + 1 == |inst.watches| {
      WatchLast(st, inst, i, k);
    } else {
      GroupFacts(inst, i);
      WatchNext(st, inst, i, "]" + k, inst.watches[i].group, inst.watches[i + 1].group);
      WatchRead(st, inst, i + 1, k);
    }
  }

  lemma GroupBound(inst: Inst, i: nat)
    requires Canonical(inst) && i < |inst.watches|
    ensures inst.watches[i].group < 255
  {
    hide InputOk, OutputOk, PinsDistinct, Word, DeclaredBy, Physical;
    assert WatchOk(inst.inputs, inst.watches[i], i);
  }
}
