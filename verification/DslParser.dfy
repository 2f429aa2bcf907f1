/** The parser as the program runs it: a cursor that moves over the text, loops that fill the
    instance, positions remembered and given back. */
module DslParser {
  import opened BoardPins
  import opened Dsl

  lemma Drop(text: string, a: nat, b: nat)
    requires a + b <= |text|
    ensures text[a..][b..] == text[a + b..]
  {
  }

  lemma SpacesStep(s: string)
    ensures SkipWs(s) == if s != "" && IsSpace(s[0]) then SkipWs(s[1..]) else s
  {
  }

  lemma RunStep(s: string)
    ensures RunLength(s) == if s != "" && IsCont(s[0]) then 1 + RunLength(s[1..]) else 0
  {
  }

  lemma HexStep(s: string, val: nat, some: bool)
    ensures HexRun(s, val, some) ==
      if s != "" && HexDigit(s[0]).Some?
      then HexRun(s[1..], (val * 16 + HexDigit(s[0]).value) % 0x1_0000_0000, true)
      else (val, some, s)
  {
  }

  lemma DecStep(s: string, val: nat, some: bool)
    ensures DecRun(s, val, some) ==
      if s != "" && IsDigit(s[0])
      then DecRun(s[1..], (val * 10 + (s[0] as nat - '0' as nat)) % 0x1_0000_0000, true)
      else (val, some, s)
  {
  }

  /** What a parsing method reports against what the language says: the value and the rest of the text,
      or the error and where it was noticed. */
  predicate Matches<T(==)>(r: Read<T>, st: Option<Status>, value: T, rest: string) {
    match r
    case Ok(v, s) => st == None && value == v && rest == s
    case Err(e, at) => st == Some(e) && rest == at
  }

  lemma PinListStep(s: string, labels: seq<string>)
    ensures PinList(s, labels) ==
      if |labels| >= MAX_INPUTS + MAX_OUTPUTS then Err(TooManyInputs, s)
      else if ReadIdent(s).None? then Err(UnexpectedChar, SkipWs(s))
      else
        var more := labels + [ReadIdent(s).value.0.word];
        var comma := Consume(ReadIdent(s).value.1, ',');
        if comma.0 then PinList(comma.1, more)
        else
          var close := Consume(comma.1, ')');
          if close.0 then Ok(more, close.1) else Err(UnexpectedChar, close.1)
  {
    hide ReadIdent, Consume, SkipWs;
  }

  lemma ModListStep(s: string, mods: seq<string>)
    ensures ModList(s, mods) ==
      if |mods| >= 4 then Err(UnknownMode, s)
      else if ReadIdent(s).None? then Err(UnexpectedChar, SkipWs(s))
      else
        var more := mods + [ReadIdent(s).value.0.word];
        var rest := ReadIdent(s).value.1;
        var comma := Consume(rest, ',');
        if !comma.0 then Ok(more, comma.1)
        else if ModifierFollows(SkipWs(comma.1)) then ModList(SkipWs(comma.1), more) else Ok(more, rest)
  {
    hide ReadIdent, Consume, SkipWs, ModifierFollows;
  }

  lemma QualifyStep(g: Group, mods: seq<string>, i: nat)
    requires i < |mods|
    ensures QualifyAll(g, mods[i..]) ==
      (var q := Qualify(g, mods[i]); if q.Bad? then q else QualifyAll(q.value, mods[i + 1..]))
  {
    assert mods[i..][1..] == mods[i + 1..];
  }

  lemma QualifyNone(g: Group, mods: seq<string>)
    requires mods == []
    ensures QualifyAll(g, mods) == Good(g)
  {
  }

  lemma RecordStep(inst: Inst, g: Group, labels: seq<string>, i: nat)
    requires i < |labels|
    ensures RecordPins(inst, g, labels[i..]) ==
      (var r := RecordPin(inst, g, labels[i]); if r.Bad? then r else RecordPins(r.value, g, labels[i + 1..]))
  {
    hide RecordPin;
    assert labels[i..][1..] == labels[i + 1..];
  }

  lemma RecordNone(inst: Inst, g: Group, labels: seq<string>)
    requires labels == []
    ensures RecordPins(inst, g, labels) == Good(inst)
  {
  }

  lemma CfgStep(s: string, inst: Inst)
    ensures ParseCfg(s, inst) ==
      var g := CfgGroup(s, inst);
      if g.Err? then g
      else
        var comma := Consume(g.rest, ',');
        if comma.0 then ParseCfg(comma.1, g.value) else Ok(g.value, comma.1)
  {
    hide CfgGroup, Consume;
  }

  lemma WatchStep(s: string, inst: Inst, group: nat)
    ensures ParseWatch(s, inst, group) ==
      var c := Clause(s, inst, group);
      if c.Err? then c
      else
        var comma := Consume(c.rest, ',');
        if comma.0 then ParseWatch(comma.1, c.value, group)
        else
          var bar := Consume(comma.1, '|');
          if bar.0 then ParseWatch(bar.1, c.value, (group + 1) % 256) else Ok(c.value, bar.1)
  {
    hide Clause, Consume;
  }

  lemma OutStep(s: string, inst: Inst, isOk: bool)
    ensures ParseOut(s, inst, isOk) ==
      var o := OutValue(s, inst, isOk);
      if o.Err? then o
      else
        var comma := Consume(o.rest, ',');
        if comma.0 then ParseOut(comma.1, o.value, isOk) else Ok(o.value, comma.1)
  {
    hide OutValue, Consume;
  }

  lemma SectionsStep(s: string, p: Progress)
    ensures Sections(s, p) ==
      var semi := Consume(s, ';');
      if !semi.0 then Ok(p, semi.1)
      else
        var sec := Section(semi.1, p);
        if sec.Err? then sec else Sections(sec.rest, sec.value)
  {
    hide Section, Consume;
  }

  lemma ComparisonStep(s: string)
    ensures Comparison(s) ==
      var op := Operator(SkipWs(s));
      if op.Err? then Err(op.status, op.at)
      else
        var n := ReadNumber(op.rest);
        if n.Err? then Err(n.status, n.at) else Ok(Cmp(op.value, n.value), n.rest)
  {
    hide SkipWs, Operator, ReadNumber;
  }

  lemma SkipTwice(s: string)
    ensures SkipWs(SkipWs(s)) == SkipWs(s)
  {
    SpacesStep(SkipWs(s));
  }

  lemma NumberErr(s: string)
    ensures ReadNumber(s).Err? ==> ReadNumber(s).status == BadNumber
  {
    hide SkipWs, HexRun, DecRun;
  }

  class Parser {
    const text: string
    var pos: nat
    var inst: Inst

    ghost predicate Valid()
      reads this`pos
    {
      pos <= |text|
    }

    ghost function Rest(): string
      requires Valid()
      reads this`pos
    {
      text[pos..]
    }

    constructor (text: string)
      ensures Valid() && this.text == text && pos == 0 && inst == Inst("", [], [], [], Unevaluated)
    {
      this.text := text;
      pos := 0;
      inst := Inst("", [], [], [], Unevaluated);
    }

    // ---- Tokens ---------------------------------------------------------------------

    method SkipSpaces()
      requires Valid()
      modifies this`pos
      ensures Valid() && Rest() == SkipWs(old(Rest()))
    {
      hide SkipWs, IsSpace;
      ghost var goal := SkipWs(Rest());
      while pos < |text| && IsSpace(text[pos])
        invariant Valid() && SkipWs(Rest()) == goal
        decreases |text| - pos
      {
        SpacesStep(Rest());
        Drop(text, pos, 1);
        pos := pos + 1;
      }
      SpacesStep(Rest());
    }

    method PeekChar() returns (c: char)
      requires Valid()
      ensures c == Peek(Rest())
    {
      c := if pos >= |text| then '\0' else text[pos];
    }

    method ReadIdentifier() returns (id: Option<Ident>)
      requires Valid()
      modifies this`pos
      ensures Valid()
      ensures ReadIdent(old(Rest())).None? ==> id == None && Rest() == SkipWs(old(Rest()))
      ensures ReadIdent(old(Rest())).Some? ==> id.Some? && (id.value, Rest()) == ReadIdent(old(Rest())).value
    {
      hide SkipWs, RunLength, IsCont, IsStart;
      SkipSpaces();
      if pos >= |text| || !IsStart(text[pos]) {
        return None;
      }
      var begin := pos;
      ghost var t := Rest();
      SkipRun();
      var len := (pos - begin) % 256;
      id := Some(Ident(text[begin], text[begin..begin + len]));
      Drop(text, begin, pos - begin);
      assert t[..len] == text[begin..begin + len];
    }

    /** The loop over the characters of an identifier. */
    method SkipRun()
      requires Valid()
      modifies this`pos
      ensures Valid() && pos == old(pos) + RunLength(old(Rest()))
    {
      hide RunLength, IsCont;
      ghost var n, begin := RunLength(Rest()), pos;
      while pos < |text| && IsCont(text[pos])
        invariant Valid() && begin <= pos && n == (pos - begin) + RunLength(Rest())
        decreases |text| - pos
      {
        RunStep(Rest());
        Drop(text, pos, 1);
        pos := pos + 1;
      }
      RunStep(Rest());
    }

    method ConsumeChar(want: char) returns (ok: bool)
      requires Valid()
      modifies this`pos
      ensures Valid() && (ok, Rest()) == Consume(old(Rest()), want)
    {
      hide SkipWs;
      SkipSpaces();
      if pos >= |text| || text[pos] != want {
        return false;
      }
      Drop(text, pos, 1);
      pos := pos + 1;
      ok := true;
    }

    method HexDigits() returns (val: nat, some: bool)
      requires Valid()
      modifies this`pos
      ensures Valid() && (val, some, Rest()) == HexRun(old(Rest()), 0, false)
    {
      hide HexRun, HexDigit;
      val, some := 0, false;
      ghost var goal := HexRun(Rest(), 0, false);
      while pos < |text| && HexDigit(text[pos]).Some?
        invariant Valid() && HexRun(Rest(), val, some) == goal
        decreases |text| - pos
      {
        HexStep(Rest(), val, some);
        Drop(text, pos, 1);
        val := (val * 16 + HexDigit(text[pos]).value) % 0x1_0000_0000;
        pos := pos + 1;
        some := true;
      }
      HexStep(Rest(), val, some);
    }

    method DecDigits() returns (val: nat, some: bool)
      requires Valid()
      modifies this`pos
      ensures Valid() && (val, some, Rest()) == DecRun(old(Rest()), 0, false)
    {
      hide DecRun;
      val, some := 0, false;
      ghost var goal := DecRun(Rest(), 0, false);
      while pos < |text| && IsDigit(text[pos])
        invariant Valid() && DecRun(Rest(), val, some) == goal
        decreases |text| - pos
      {
        DecStep(Rest(), val, some);
        Drop(text, pos, 1);
        var d: nat := text[pos] as nat - '0' as nat;
        val := (val * 10 + d) % 0x1_0000_0000;
        pos := pos + 1;
        some := true;
      }
      DecStep(Rest(), val, some);
    }

    method ReadNum() returns (value: Option<nat>)
      requires Valid()
      modifies this`pos
      ensures Valid()
      ensures var r := ReadNumber(old(Rest()));
        && value == (if r.Ok? then Some(r.value) else None)
        && Rest() == (if r.Ok? then r.rest else r.at)
    {
      hide SkipWs, HexRun, DecRun;
      SkipSpaces();
      if pos >= |text| {
        DecStep("", 0, false);
        return None;
      }
      var val, some;
      if pos + 1 < |text| && text[pos] == '0' && (text[pos + 1] == 'x' || text[pos + 1] == 'X') {
        Drop(text, pos, 2);
        pos := pos + 2;
        val, some := HexDigits();
      } else {
        val, some := DecDigits();
      }
      if !some {
        return None;
      }
      value := Some(val % 0x10000);
    }

    // ---- cfg[...] -------------------------------------------------------------------

    method ParsePins() returns (st: Option<Status>, labels: seq<string>)
      requires Valid()
      modifies this`pos
      ensures Valid() && Matches(Pins(old(Rest())), st, labels, Rest())
    {
      hide PinList, ReadIdent, Consume, SkipWs;
      labels := [];
      var open := ConsumeChar('(');
      if open {
        ghost var goal := PinList(Rest(), []);
        while true
          invariant Valid() && PinList(Rest(), labels) == goal
          decreases |text| - pos
        {
          PinListStep(Rest(), labels);
          if |labels| >= MAX_INPUTS + MAX_OUTPUTS {
            return Some(TooManyInputs), labels;
          }
          var id := ReadIdentifier();
          if id == None {
            return Some(UnexpectedChar), labels;
          }
          labels := labels + [id.value.word];
          var comma := ConsumeChar(',');
          if !comma {
            var close := ConsumeChar(')');
            st := if close then None else Some(UnexpectedChar);
            return;
          }
        }
      } else {
        var id := ReadIdentifier();
        if id == None {
          return Some(UnexpectedChar), labels;
        }
        return None, [id.value.word];
      }
    }

    /** The modifiers of a group. The comma after the last one is given back: it separates groups. */
    method ParseMods() returns (st: Option<Status>, mods: seq<string>)
      requires Valid()
      modifies this`pos
      ensures Valid() && Matches(ModList(old(Rest()), []), st, mods, Rest())
    {
      hide ModList, ReadIdent, Consume, SkipWs, IsKnownModifier;
      mods := [];
      ghost var goal := ModList(Rest(), []);
      while true
        invariant Valid() && ModList(Rest(), mods) == goal
        decreases |text| - pos
      {
        ModListStep(Rest(), mods);
        if |mods| >= 4 {
          return Some(UnknownMode), mods;
        }
        var id := ReadIdentifier();
        if id == None {
          return Some(UnexpectedChar), mods;
        }
        mods := mods + [id.value.word];
        var preComma := pos;
        var comma := ConsumeChar(',');
        if !comma {
          return None, mods;
        }
        SkipTwice(Rest());
        SkipSpaces();
        var follows := ModifierAhead();
        if !follows {
          pos := preComma;
          return None, mods;
        }
      }
    }

    /** The look past a comma: the cursor stays where it is. */
    method ModifierAhead() returns (ok: bool)
      requires Valid() && SkipWs(Rest()) == Rest()
      modifies this`pos
      ensures Valid() && pos == old(pos) && ok == ModifierFollows(old(Rest()))
    {
      hide SkipWs, IsKnownModifier;
      var c := PeekChar();
      if c == '(' || !IsStart(c) {
        return false;
      }
      var atIdent := pos;
      var id := ReadIdentifier();
      pos := atIdent;
      ok := id.Some? && IsKnownModifier(id.value.word);
    }

    static method ResolveMods(mods: seq<string>) returns (g: Result<Group>)
      requires mods != []
      ensures g == Resolve(mods)
    {
      hide QualifyAll, Qualify;
      g := FirstModifier(mods[0]);
      if g.Bad? {
        return;
      }
      ghost var goal := QualifyAll(g.value, mods[1..]);
      var i := 1;
      while i < |mods|
        invariant 1 <= i <= |mods| && g.Good? && QualifyAll(g.value, mods[i..]) == goal
      {
        QualifyStep(g.value, mods, i);
        g := Qualify(g.value, mods[i]);
        if g.Bad? {
          return;
        }
        i := i + 1;
      }
      QualifyNone(g.value, mods[i..]);
    }

    method FindInputIdx(phys: nat) returns (i: int)
      ensures i == FindInput(inst, phys)
    {
      i := 0;
      while i < |inst.inputs|
        invariant 0 <= i <= |inst.inputs| && InputFrom(inst.inputs, phys, i) == InputFrom(inst.inputs, phys, 0)
      {
        if inst.inputs[i].phys == phys {
          return;
        }
        i := i + 1;
      }
      i := -1;
    }

    method FindOutputIdx(phys: nat) returns (i: int)
      ensures i == FindOutput(inst, phys)
    {
      i := 0;
      while i < |inst.outputs|
        invariant 0 <= i <= |inst.outputs| && OutputFrom(inst.outputs, phys, i) == OutputFrom(inst.outputs, phys, 0)
      {
        if inst.outputs[i].phys == phys {
          return;
        }
        i := i + 1;
      }
      i := -1;
    }

    method RecordOne(g: Group, word: string) returns (st: Option<Status>)
      modifies this`inst
      ensures RecordPin(old(inst), g, word).Good? ==> st == None && inst == RecordPin(old(inst), g, word).value
      ensures RecordPin(old(inst), g, word).Bad? ==> st == Some(RecordPin(old(inst), g, word).status)
    {
      hide InputFrom, OutputFrom, Lookup, PhysId;
      var bp := LookupLabel(word);
      if bp == None {
        return Some(UnknownPin);
      }
      var phys := PhysId(bp.value);
      var i := FindInputIdx(phys);
      if i >= 0 {
        return Some(DuplicatePin);
      }
      var o := FindOutputIdx(phys);
      if o >= 0 {
        return Some(DuplicatePin);
      }
      if g.OutGroup? {
        if |inst.outputs| >= MAX_OUTPUTS {
          return Some(TooManyOutputs);
        }
        inst := inst.(outputs := inst.outputs + [Output(phys, 0, 0, g.openDrain)]);
      } else {
        if |inst.inputs| >= MAX_INPUTS {
          return Some(TooManyInputs);
        }
        inst := inst.(inputs := inst.inputs + [GroupInput(g, phys)]);
      }
      st := None;
    }

    method RecordAll(g: Group, labels: seq<string>) returns (st: Option<Status>)
      modifies this`inst
      ensures RecordPins(old(inst), g, labels).Good? ==> st == None && inst == RecordPins(old(inst), g, labels).value
      ensures RecordPins(old(inst), g, labels).Bad? ==> st == Some(RecordPins(old(inst), g, labels).status)
    {
      hide RecordPin, RecordPins;
      ghost var goal := RecordPins(inst, g, labels);
      assert labels[0..] == labels;
      var i := 0;
      while i < |labels|
        invariant 0 <= i <= |labels| && RecordPins(inst, g, labels[i..]) == goal
      {
        RecordStep(inst, g, labels, i);
        st := RecordOne(g, labels[i]);
        if st != None {
          return;
        }
        i := i + 1;
      }
      RecordNone(inst, g, labels[i..]);
      st := None;
    }

    method ParseCfgSection() returns (st: Option<Status>)
      requires Valid()
      modifies this`pos, this`inst
      ensures Valid() && Matches(ParseCfg(old(Rest()), old(inst)), st, inst, Rest())
    {
      hide ParseCfg, CfgGroup, Consume;
      ghost var goal := ParseCfg(Rest(), inst);
      while true
        invariant Valid() && ParseCfg(Rest(), inst) == goal
        decreases |text| - pos
      {
        CfgStep(Rest(), inst);
        st := ParseGroup();
        if st != None {
          return;
        }
        var comma := ConsumeChar(',');
        if !comma {
          return None;
        }
      }
    }

    method ParseGroup() returns (st: Option<Status>)
      requires Valid()
      modifies this`pos, this`inst
      ensures Valid() && Matches(CfgGroup(old(Rest()), old(inst)), st, inst, Rest())
    {
      hide Pins, ModList, Resolve, RecordPins, Consume, SkipWs;
      SkipSpaces();
      var labels, mods;
      st, labels := ParsePins();
      if st != None {
        return;
      }
      var colon := ConsumeChar(':');
      if !colon {
        return Some(UnexpectedChar);
      }
      st, mods := ParseMods();
      if st != None {
        return;
      }
      var g := ResolveMods(mods);
      if g.Bad? {
        return Some(g.status);
      }
      st := RecordAll(g.value, labels);
    }

    // ---- watch[...] -----------------------------------------------------------------

    method ReadOperator() returns (st: Option<Status>, op: Op)
      requires Valid() && SkipWs(Rest()) == Rest()
      modifies this`pos
      ensures Valid() && Matches(Operator(old(Rest())), st, op, Rest())
    {
      hide ReadIdent, Consume, SkipWs, OpOf;
      op := Eq;
      var c := PeekChar();
      if !IsStart(c) {
        return None, Eq;
      }
      var id := ReadIdentifier();
      if id == None {
        return Some(UnexpectedChar), Eq;
      }
      if OpOf(id.value.word).None? {
        return Some(UnknownOp), Eq;
      }
      op := OpOf(id.value.word).value;
      var colon := ConsumeChar(':');
      st := if colon then None else Some(UnexpectedChar);
    }

    method ReadComparison() returns (st: Option<Status>, cmp: Cmp)
      requires Valid()
      modifies this`pos
      ensures Valid() && Matches(Comparison(old(Rest())), st, cmp, Rest())
    {
      hide Operator, ReadNumber, SkipWs, Comparison;
      ghost var s := Rest();
      ComparisonStep(s);
      SkipTwice(s);
      SkipSpaces();
      var op;
      st, op := ReadOperator();
      if st != None {
        cmp := Cmp(Eq, 0);
        assert Comparison(s) == Err(st.value, Rest());
        return;
      }
      NumberErr(Rest());
      var n := ReadNum();
      if n == None {
        assert Comparison(s) == Err(BadNumber, Rest());
        return Some(BadNumber), Cmp(Eq, 0);
      }
      assert Comparison(s) == Ok(Cmp(op, n.value), Rest());
      return None, Cmp(op, n.value);
    }

    method Resolve1(id: Ident) returns (st: Option<Status>, i: nat)
      modifies this`inst
      ensures Operand(old(inst), id).Good? ==> st == None && (inst, i) == Operand(old(inst), id).value
      ensures Operand(old(inst), id).Bad? ==> st == Some(Operand(old(inst), id).status)
    {
      hide InputFrom, Lookup, PhysId, VirtLookup;
      i := 0;
      if id.first == '_' {
        var v := VirtLookup(id.word);
        if v == None {
          return Some(UnknownVirtual), 0;
        }
        var k := FindInputIdx(v.value);
        if k < 0 {
          if |inst.inputs| >= MAX_INPUTS {
            return Some(TooManyInputs), 0;
          }
          k := |inst.inputs|;
          inst := inst.(inputs := inst.inputs + [Input(v.value, Virtual, 0, 0, 0, 0)]);
        }
        return None, k;
      } else {
        var bp := LookupLabel(id.word);
        if bp == None {
          return Some(UnknownPin), 0;
        }
        var k := FindInputIdx(PhysId(bp.value));
        if k < 0 {
          return Some(WatchInputUndecl), 0;
        }
        return None, k;
      }
    }

    method ParseClause(group: nat) returns (st: Option<Status>)
      requires Valid()
      modifies this`pos, this`inst
      ensures Valid() && Matches(Clause(old(Rest()), old(inst), group), st, inst, Rest())
    {
      hide ReadIdent, Comparison, Consume, SkipWs, Operand;
      var id := ReadIdentifier();
      if id == None {
        return Some(UnexpectedChar);
      }
      var colon := ConsumeChar(':');
      if !colon {
        return Some(UnexpectedChar);
      }
      var cmp, i;
      st, cmp := ReadComparison();
      if st != None {
        return;
      }
      st, i := Resolve1(id.value);
      if st != None {
        return;
      }
      if inst.inputs[i].hyst != 0 && (cmp.op == Eq || cmp.op == Ne) {
        return Some(HystOnEqNe);
      }
      if |inst.watches| >= MAX_WATCHES {
        return Some(TooManyWatches);
      }
      inst := inst.(watches := inst.watches + [Watch(i, cmp.op, cmp.threshold, group)]);
      st := None;
    }

    method ParseWatchSection() returns (st: Option<Status>)
      requires Valid()
      modifies this`pos, this`inst
      ensures Valid() && Matches(ParseWatch(old(Rest()), old(inst), 0), st, inst, Rest())
    {
      hide ParseWatch, Clause, Consume;
      ghost var goal := ParseWatch(Rest(), inst, 0);
      var group := 0;
      while true
        invariant Valid() && group >= 0 && ParseWatch(Rest(), inst, group) == goal
        decreases |text| - pos
      {
        WatchStep(Rest(), inst, group);
        st := ParseClause(group);
        if st != None {
          return;
        }
        var comma := ConsumeChar(',');
        if comma {
          continue;
        }
        var bar := ConsumeChar('|');
        if bar {
          group := (group + 1) % 256;
          continue;
        }
        return None;
      }
    }

    // ---- out_ok[...] and out_err[...] -----------------------------------------------

    method ParseOutItem(isOk: bool) returns (st: Option<Status>)
      requires Valid()
      modifies this`pos, this`inst
      ensures Valid() && Matches(OutValue(old(Rest()), old(inst), isOk), st, inst, Rest())
    {
      hide ReadIdent, ReadNumber, Consume, SkipWs, OutputFrom, Lookup, PhysId;
      var id := ReadIdentifier();
      if id == None {
        return Some(UnexpectedChar);
      }
      var colon := ConsumeChar(':');
      if !colon {
        return Some(UnexpectedChar);
      }
      NumberErr(Rest());
      var n := ReadNum();
      if n == None || n.value > 1 {
        return Some(BadNumber);
      }
      var bp := LookupLabel(id.value.word);
      if bp == None {
        return Some(UnknownPin);
      }
      var i := FindOutputIdx(PhysId(bp.value));
      if i < 0 {
        return Some(OutputUndecl);
      }
      var o := if isOk then inst.outputs[i].(okValue := n.value) else inst.outputs[i].(errValue := n.value);
      inst := inst.(outputs := inst.outputs[i := o]);
      st := None;
    }

    method ParseOutSection(isOk: bool) returns (st: Option<Status>)
      requires Valid()
      modifies this`pos, this`inst
      ensures Valid() && Matches(ParseOut(old(Rest()), old(inst), isOk), st, inst, Rest())
    {
      hide ParseOut, OutValue, Consume;
      ghost var goal := ParseOut(Rest(), inst, isOk);
      while true
        invariant Valid() && ParseOut(Rest(), inst, isOk) == goal
        decreases |text| - pos
      {
        OutStep(Rest(), inst, isOk);
        st := ParseOutItem(isOk);
        if st != None {
          return;
        }
        var comma := ConsumeChar(',');
        if !comma {
          return None;
        }
      }
    }

    // ---- The whole message ----------------------------------------------------------

    method ParseBody(kw: string, p: Progress) returns (st: Option<Status>, q: Progress)
      requires Valid() && p.inst == inst
      modifies this`pos, this`inst
      ensures Valid() && Matches(Body(kw, old(Rest()), p), st, q, Rest()) && (st == None ==> q.inst == inst)
    {
      hide ParseCfg, ParseWatch, ParseOut;
      q := p;
      if kw == "cfg" {
        st := ParseCfgSection();
      } else if kw == "watch" {
        st := ParseWatchSection();
      } else if kw == "out_ok" {
        st := ParseOutSection(true);
        q := q.(seenOk := true);
      } else if kw == "out_err" {
        st := ParseOutSection(false);
        q := q.(seenErr := true);
      } else {
        st := Some(UnknownKeyword);
      }
      q := q.(inst := inst);
    }

    /** One section, after its semicolon. */
    method ParseSection(p: Progress) returns (st: Option<Status>, q: Progress)
      requires Valid() && p.inst == inst
      modifies this`pos, this`inst
      ensures Valid() && Matches(Section(old(Rest()), p), st, q, Rest()) && (st == None ==> q.inst == inst)
    {
      hide ReadIdent, Consume, SkipWs, Body;
      q := p;
      var id := ReadIdentifier();
      if id == None {
        return Some(UnexpectedChar), q;
      }
      var open := ConsumeChar('[');
      if !open {
        return Some(UnexpectedChar), q;
      }
      st, q := ParseBody(id.value.word, p);
      if st != None {
        return;
      }
      var close := ConsumeChar(']');
      st := if close then None else Some(UnexpectedChar);
    }

    method ParseSections() returns (st: Option<Status>, q: Progress)
      requires Valid() && inst == Inst(inst.name, [], [], [], Unevaluated)
      modifies this`pos, this`inst
      ensures Valid() && Matches(Sections(old(Rest()), Progress(old(inst), false, false)), st, q, Rest())
    {
      hide Sections, Section, Consume;
      q := Progress(inst, false, false);
      ghost var goal := Sections(Rest(), q);
      while true
        invariant Valid() && q.inst == inst && Sections(Rest(), q) == goal
        decreases |text| - pos
      {
        SectionsStep(Rest(), q);
        var semi := ConsumeChar(';');
        if !semi {
          return None, q;
        }
        st, q := ParseSection(q);
        if st != None {
          return;
        }
      }
    }

    /** The parse of the whole text: the outcome is the one the language defines, and the cursor never
        leaves the text. */
    method ParseText() returns (r: Outcome)
      requires pos == 0 && inst == Inst("", [], [], [], Unevaluated)
      modifies this`pos, this`inst
      ensures Valid() && r == Parse(text)
    {
      hide ReadIdent, Sections, SkipWs;
      if |text| == 0 {
        return Failed(Empty, None);
      }
      assert Rest() == text;
      var id := ReadIdentifier();
      if id == None {
        return Failed(UnexpectedChar, Some(pos));
      }
      if |id.value.word| >= NAME_MAX {
        return Failed(NameTooLong, Some(pos));
      }
      inst := inst.(name := id.value.word);
      var st, q := ParseSections();
      if st != None {
        return Failed(st.value, Some(pos));
      }
      SkipSpaces();
      if pos < |text| {
        return Failed(UnexpectedChar, Some(pos));
      }
      r := CheckOutputs(q);
    }
  }

  method CheckOutputs(q: Progress) returns (r: Outcome)
    ensures r == FinalCheck(q)
  {
    var os := q.inst.outputs;
    if |os| > 0 {
      if !q.seenOk {
        return Failed(MissingOutOk, None);
      }
      if !q.seenErr {
        return Failed(MissingOutErr, None);
      }
      var i := 0;
      while i < |os|
        invariant 0 <= i <= |os| && forall k :: 0 <= k < i ==> os[k].okValue != os[k].errValue
      {
        if os[i].okValue == os[i].errValue {
          return Failed(OutputValueMismatch, None);
        }
        i := i + 1;
      }
    }
    r := Parsed(q.inst.(tf := Unevaluated));
  }
}
