/** Texts that the printer does not write: lists of pins, white space, and texts that must be refused. */
module DslVariants {
  import opened BoardPins
  import opened Dsl
  import opened DslSoundness
  import opened DslPrint
  import opened DslTokens
  import opened DslCfgTrip
  import opened DslPinsTrip
  import opened DslWatchTrip
  import opened DslRoundTrip
  import P = DslParser

  // ---- Lists of pins ------------------------------------------------------------------

  /** The names of a list after its opening parenthesis, up to the closing one. */
  function Listed(names: seq<string>, k: string): string
    requires names != []
  {
    if |names| == 1 then names[0] + (")" + k) else names[0] + ("," + Listed(names[1..], k))
  }

  predicate Words(names: seq<string>) { forall i :: 0 <= i < |names| ==> Word(names[i]) }

  lemma LastName(name: string, acc: seq<string>, k: string)
    requires Word(name) && |acc| < 6
    ensures PinList(name + (")" + k), acc) == Ok(acc + [name], k)
  {
    hide ReadIdent, Consume, SkipWs, PinList, Word;
    Comma(k);
    WordRead(name, ")" + k);
    CommaNoSpace();
    Miss(")" + k, ',');
    Hit(')', k);
    P.PinListStep(name + (")" + k), acc);
  }

  lemma NextName(name: string, acc: seq<string>, k: string)
    requires Word(name) && |acc| < 6
    ensures PinList(name + ("," + k), acc) == PinList(k, acc + [name])
  {
    hide ReadIdent, Consume, SkipWs, PinList, Word;
    Comma(k);
    WordRead(name, "," + k);
    CommaNoSpace();
    Hit(',', k);
    P.PinListStep(name + ("," + k), acc);
  }

  lemma {:induction false} ListRead(names: seq<string>, acc: seq<string>, k: string)
    requires names != [] && Words(names) && |acc| + |names| <= 6
    ensures PinList(Listed(names, k), acc) == Ok(acc + names, k)
    decreases |names|
  {
    hide PinList, Word;
    if |names| == 1 {
      LastName(names[0], acc, k);
      assert acc + [names[0]] == acc + names;
    } else {
      NextName(names[0], acc, Listed(names[1..], k));
      ListRead(names[1..], acc + [names[0]], k);
      assert acc + [names[0]] + names[1..] == acc + names;
    }
  }

  lemma ListPins(names: seq<string>, k: string)
    requires names != [] && Words(names) && |names| <= 6
    ensures var t := "(" + Listed(names, k); SkipWs(t) == t && Pins(t) == Ok(names, k)
  {
    var t := "(" + Listed(names, k);
    ListRead(names, [], k);
    assert [] + names == names;
    CommaNoSpace();
    Hit('(', Listed(names, k));
    NoSkip(t);
    hide PinList, Consume, Listed, SkipWs, Word;
  }

  /** What reading one pin after the other, each in a group of its own, amounts to. */
  function OneByOne(names: seq<string>, mods: seq<string>, inst: Inst, k: string): Read<Inst>
    requires mods != []
    decreases |names|
  {
    if names == [] then Ok(inst, k)
    else
      var r := CfgGroup(names[0] + (":" + ModsText(mods, k)), inst);
      if r.Ok? then OneByOne(names[1..], mods, r.value, k) else r
  }

  lemma GroupIs(t: string, inst: Inst, labels: seq<string>, a: string, b: string, mods: seq<string>, k: string)
    requires SkipWs(t) == t && Pins(t) == Ok(labels, a) && Consume(a, ':') == (true, b)
    requires ModList(b, []) == Ok(mods, k) && mods != []
    ensures CfgGroup(t, inst) ==
      if Resolve(mods).Bad? then Err(Resolve(mods).status, k)
      else
        var rec := RecordPins(inst, Resolve(mods).value, labels);
        if rec.Bad? then Err(rec.status, k) else Ok(rec.value, k)
  {
    hide SkipWs, Pins, Consume, ModList, Resolve, RecordPins;
  }

  lemma SingleIs(name: string, mods: seq<string>, inst: Inst, k: string)
    requires Word(name) && ModWords(mods) && |mods| <= 4 && Closes(k)
    ensures CfgGroup(name + (":" + ModsText(mods, k)), inst) ==
      if Resolve(mods).Bad? then Err(Resolve(mods).status, k)
      else
        var rec := RecordPin(inst, Resolve(mods).value, name);
        if rec.Bad? then Err(rec.status, k) else Ok(rec.value, k)
  {
    var m := ModsText(mods, k);
    assert name[0] != '(' by {
      assert IsStart(name[0]);
    }
    Comma(m);
    BarePin(name, ":" + m);
    CommaNoSpace();
    Hit(':', m);
    ModListRead(mods, [], k);
    assert [] + mods == mods;
    if Resolve(mods).Good? {
      OneLabel(inst, Resolve(mods).value, name);
    }
    hide *;
    ModsThere(mods);
    GroupIs(name + (":" + m), inst, [name], ":" + m, m, mods, k);
  }

  lemma ModsThere(mods: seq<string>)
    requires ModWords(mods)
    ensures mods != []
  {
  }

  lemma {:induction false} OneByOneIs(names: seq<string>, mods: seq<string>, inst: Inst, k: string)
    requires Words(names) && ModWords(mods) && mods != [] && |mods| <= 4 && Closes(k) && Resolve(mods).Good?
    ensures var rec := RecordPins(inst, Resolve(mods).value, names);
      OneByOne(names, mods, inst, k) == if rec.Bad? then Err(rec.status, k) else Ok(rec.value, k)
    decreases |names|
  {
    hide CfgGroup, Resolve, RecordPin, ModsText, Word, ModWords, Closes;
    if names != [] {
      SingleIs(names[0], mods, inst, k);
      var r := RecordPin(inst, Resolve(mods).value, names[0]);
      if r.Good? {
        OneByOneIs(names[1..], mods, r.value, k);
      }
    }
  }

  /** A list of up to six pins means what its pins mean one by one, with the same modifiers. */
  lemma ListMeans(names: seq<string>, mods: seq<string>, inst: Inst, k: string)
    requires names != [] && Words(names) && |names| <= 6 && ModWords(mods) && |mods| <= 4 && Closes(k)
    ensures mods != []
    ensures CfgGroup("(" + Listed(names, ":" + ModsText(mods, k)), inst) == OneByOne(names, mods, inst, k)
  {
    var m := ModsText(mods, k);
    var t := "(" + Listed(names, ":" + m);
    ListPins(names, ":" + m);
    CommaNoSpace();
    Hit(':', m);
    ModListRead(mods, [], k);
    assert [] + mods == mods;
    assert Word(names[0]);
    SingleIs(names[0], mods, inst, k);
    if Resolve(mods).Good? {
      OneByOneIs(names, mods, inst, k);
    }
    hide CfgGroup, Resolve, RecordPins, ModsText, Word, Closes, Listed, Pins, SkipWs, ModList, Consume, RecordPin;
    GroupIs(t, inst, names, ":" + m, m, mods, k);
  }

  // ---- White space --------------------------------------------------------------------

  predicate Blanks(w: string) {
    forall i :: 0 <= i < |w| ==> w[i] == ' ' || w[i] == '\t' || w[i] == '\r' || w[i] == '\n'
  }

  lemma {:induction false} Skips(w: string, s: string)
    requires Blanks(w)
    ensures SkipWs(w + s) == SkipWs(s)
    decreases |w|
  {
    if w == "" {
      assert w + s == s;
    } else {
      assert (w + s)[1..] == w[1..] + s && IsSpace((w + s)[0]);
      Skips(w[1..], s);
    }
  }

  lemma SameIdent(s: string, t: string, c: char)
    requires SkipWs(s) == SkipWs(t)
    ensures ReadIdent(s) == ReadIdent(t) && Consume(s, c) == Consume(t, c)
  {
    hide RunLength, SkipWs, IsStart;
  }

  lemma SameNumber(s: string, t: string)
    requires SkipWs(s) == SkipWs(t)
    ensures ReadNumber(s) == ReadNumber(t)
  {
    hide HexRun, DecRun, SkipWs;
  }

  /** White space before any word, separator or number is skipped, */
  lemma SpacedTokens(w: string, s: string, c: char)
    requires Blanks(w)
    ensures ReadIdent(w + s) == ReadIdent(s) && Consume(w + s, c) == Consume(s, c) && ReadNumber(w + s) == ReadNumber(s)
  {
    hide *;
    Skips(w, s);
    SameIdent(w + s, s, c);
    SameNumber(w + s, s);
  }

  lemma SpacedPins(w: string, s: string)
    requires Blanks(w)
    ensures Pins(w + s) == Pins(s)
  {
    SpacedTokens(w, s, '(');
    hide ReadIdent, Consume, SkipWs, PinList;
  }

  lemma SpacedComparison(w: string, s: string)
    requires Blanks(w)
    ensures Comparison(w + s) == Comparison(s)
  {
    hide *;
    Skips(w, s);
    P.ComparisonStep(w + s);
    P.ComparisonStep(s);
  }

  lemma SameGroup(s: string, t: string, inst: Inst)
    requires SkipWs(s) == SkipWs(t)
    ensures CfgGroup(s, inst) == CfgGroup(t, inst)
  {
    hide SkipWs, Pins, Consume, ModList, Resolve, RecordPins;
  }

  /** and so in front of a pin group, */
  lemma SpacedGroup(w: string, s: string, inst: Inst)
    requires Blanks(w)
    ensures CfgGroup(w + s, inst) == CfgGroup(s, inst)
  {
    hide *;
    Skips(w, s);
    SameGroup(w + s, s, inst);
  }

  lemma SameClause(s: string, t: string, inst: Inst, group: nat)
    requires SkipWs(s) == SkipWs(t) && ReadIdent(s) == ReadIdent(t)
    ensures Clause(s, inst, group) == Clause(t, inst, group)
  {
    hide SkipWs, ReadIdent, Consume, Comparison, AddWatch;
  }

  /** a clause, a level, */
  lemma SpacedClause(w: string, s: string, inst: Inst, group: nat)
    requires Blanks(w)
    ensures Clause(w + s, inst, group) == Clause(s, inst, group)
  {
    hide *;
    Skips(w, s);
    SpacedTokens(w, s, ':');
    SameClause(w + s, s, inst, group);
  }

  lemma SameLevel(s: string, t: string, inst: Inst, isOk: bool)
    requires SkipWs(s) == SkipWs(t) && ReadIdent(s) == ReadIdent(t)
    ensures OutValue(s, inst, isOk) == OutValue(t, inst, isOk)
  {
    hide SkipWs, ReadIdent, Consume, ReadNumber, Lookup, FindOutput;
  }

  lemma SpacedLevel(w: string, s: string, inst: Inst, isOk: bool)
    requires Blanks(w)
    ensures OutValue(w + s, inst, isOk) == OutValue(s, inst, isOk)
  {
    hide *;
    Skips(w, s);
    SpacedTokens(w, s, ':');
    SameLevel(w + s, s, inst, isOk);
  }

  /** a section and the semicolon before it. */
  lemma SpacedSection(w: string, s: string, p: Progress)
    requires Blanks(w)
    ensures Section(w + s, p) == Section(s, p) && Sections(w + s, p) == Sections(s, p)
  {
    Skips(w, s);
    SpacedTokens(w, s, ';');
    SectionIs(w + s, p);
    SectionIs(s, p);
    P.SectionsStep(w + s, p);
    P.SectionsStep(s, p);
    hide SkipWs, ReadIdent, Consume, Section, Sections, Body;
  }

  lemma SectionIs(s: string, p: Progress)
    ensures Section(s, p) ==
      if ReadIdent(s).None? then Err(UnexpectedChar, SkipWs(s))
      else
        var open := Consume(ReadIdent(s).value.1, '[');
        if !open.0 then Err(UnexpectedChar, open.1)
        else
          var b := Body(ReadIdent(s).value.0.word, open.1, p);
          if b.Err? then b
          else
            var close := Consume(b.rest, ']');
            if !close.0 then Err(UnexpectedChar, close.1) else Ok(b.value, close.1)
  {
    hide SkipWs, ReadIdent, Consume, Body;
  }

  // ---- Texts that are refused ---------------------------------------------------------

  /** The printed instance with something behind it. */
  function PrintThen(st: Style, inst: Inst, k: string): string
    requires InputsNamed(inst)
  {
    inst.name + CfgSection(st, inst, WatchSection(st, inst, OutSections(inst, k)))
  }

  lemma SectionsThen(st: Style, inst: Inst, k: string)
    requires InputsNamed(inst) && (Ends(k) || PinsOf(inst) != [] || inst.watches != [])
    ensures Ends(CfgSection(st, inst, WatchSection(st, inst, OutSections(inst, k))))
  {
    hide CfgText, WatchText, OutText, PinsOf;
    if inst.outputs != [] {
      assert PinsOf(inst) != [] by {
        OutputsListed(inst);
      }
    }
  }

  lemma OutputsListed(inst: Inst)
    requires inst.outputs != []
    ensures PinsOf(inst) != []
  {
  }

  /** Behind a printed instance the parser goes on as if it stood in front of what follows. */
  lemma GoesOn(st: Style, inst: Inst, k: string)
    requires Canonical(inst) && (Ends(k) || PinsOf(inst) != [] || inst.watches != [])
    ensures InputsNamed(inst)
    ensures var r := Sections(k, Progress(inst, inst.outputs != [], inst.outputs != []));
      r.Err? ==> Parse(PrintThen(st, inst, k)) == Failed(r.status, Offset(PrintThen(st, inst, k), r.at))
    ensures var r := Sections(k, Progress(inst, inst.outputs != [], inst.outputs != []));
      r.Ok? && SkipWs(r.rest) != "" ==>
        Parse(PrintThen(st, inst, k)) == Failed(UnexpectedChar, Offset(PrintThen(st, inst, k), SkipWs(r.rest)))
  {
    CanonicalNamed(inst);
    var outs := OutSections(inst, k);
    var watches := WatchSection(st, inst, outs);
    var a := CfgSection(st, inst, watches);
    assert PrintThen(st, inst, k) == inst.name + a;
    SectionsThen(st, inst, k);
    hide *;
    CanonicalName(inst);
    WordRead(inst.name, a);
    StartState(inst);
    CfgSectionRead(st, inst, watches);
    WatchSectionRead(st, inst, outs);
    OutSectionsRead(inst, k);
    Parts(inst.name, a);
    ParseFails(inst.name + a, Ident(inst.name[0], inst.name), a);
  }

  lemma ParseFails(text: string, id: Ident, a: string)
    requires text != "" && ReadIdent(text) == Some((id, a)) && |id.word| < NAME_MAX
    ensures var r := Sections(a, Progress(Inst(id.word, [], [], [], Unevaluated), false, false));
      && (r.Err? ==> Parse(text) == Failed(r.status, Offset(text, r.at)))
      && (r.Ok? && SkipWs(r.rest) != "" ==> Parse(text) == Failed(UnexpectedChar, Offset(text, SkipWs(r.rest))))
  {
    hide ReadIdent, Sections, FinalCheck, SkipWs;
  }

  lemma Halts(k: string, p: Progress)
    requires k != "" && !IsSpace(k[0]) && k[0] != ';'
    ensures Sections(k, p) == Ok(p, k) && SkipWs(k) == k
  {
    hide *;
    Miss(k, ';');
    NoSkip(k);
    P.SectionsStep(k, p);
  }

  lemma KeptShort(st: Style, inst: Inst, k: string)
    requires Canonical(inst) && InputsNamed(inst)
    requires k != "" && !IsSpace(k[0]) && k[0] != ';'
    ensures |k| <= |PrintThen(st, inst, k)|
  {
    var outs := OutSections(inst, k);
    var watches := WatchSection(st, inst, outs);
    var a := CfgSection(st, inst, watches);
    assert PrintThen(st, inst, k) == inst.name + a;
    hide OutSections, WatchSection, CfgSection, Sections, Canonical, CfgState, OutState;
    CanonicalName(inst);
    CfgSectionRead(st, inst, watches);
    WatchSectionRead(st, inst, outs);
    OutSectionsRead(inst, k);
    Halts(k, Progress(inst, inst.outputs != [], inst.outputs != []));
  }

  /** Nothing but another section may follow: any other character is refused, and pointed at. */
  lemma TailRefused(st: Style, inst: Inst, k: string)
    requires Canonical(inst) && (Ends(k) || PinsOf(inst) != [] || inst.watches != [])
    requires k != "" && !IsSpace(k[0]) && k[0] != ';'
    ensures InputsNamed(inst)
    ensures var t := PrintThen(st, inst, k); |k| <= |t| && Parse(t) == Failed(UnexpectedChar, Some(|t| - |k|))
  {
    hide PrintThen, Sections, Parse, Canonical, SkipWs, InputsNamed, PinsOf;
    GoesOn(st, inst, k);
    Halts(k, Progress(inst, inst.outputs != [], inst.outputs != []));
    KeptShort(st, inst, k);
  }

  lemma StrangeSection(kw: string, rest: string, p: Progress)
    requires Word(kw) && kw != "cfg" && kw != "watch" && kw != "out_ok" && kw != "out_err"
    ensures Sections(";" + (kw + ("[" + rest)), p) == Err(UnknownKeyword, rest)
  {
    var s := kw + ("[" + rest);
    assert Body(kw, rest, p) == Err(UnknownKeyword, rest);
    hide *;
    CommaNoSpace();
    Comma(rest);
    WordRead(kw, "[" + rest);
    Hit(';', s);
    Hit('[', rest);
    SectionIs(s, p);
    P.SectionsStep(";" + s, p);
  }

  /** A section of any other name is refused. */
  lemma SectionRefused(st: Style, inst: Inst, kw: string, rest: string)
    requires Canonical(inst) && Word(kw) && kw != "cfg" && kw != "watch" && kw != "out_ok" && kw != "out_err"
    ensures InputsNamed(inst)
    ensures var r := Parse(PrintThen(st, inst, ";" + (kw + ("[" + rest)))); r.Failed? && r.status == UnknownKeyword
  {
    hide *;
    Comma(kw + ("[" + rest));
    GoesOn(st, inst, ";" + (kw + ("[" + rest)));
    StrangeSection(kw, rest, Progress(inst, inst.outputs != [], inst.outputs != []));
  }

  lemma Unfinished(text: string, id: Ident, a: string, p: Progress)
    requires text != "" && ReadIdent(text) == Some((id, a)) && |id.word| < NAME_MAX
    requires Sections(a, Progress(Inst(id.word, [], [], [], Unevaluated), false, false)) == Ok(p, "")
    ensures p.inst.outputs != [] && !p.seenOk ==> Parse(text) == Failed(MissingOutOk, None)
    ensures p.inst.outputs != [] && p.seenOk && !p.seenErr ==> Parse(text) == Failed(MissingOutErr, None)
  {
    hide ReadIdent, Sections;
  }

  lemma StatesKeepOutputs(inst: Inst)
    ensures OutState(inst, 0, 0).outputs != [] <==> inst.outputs != []
    ensures Phase(inst, true, |inst.outputs|).outputs != [] <==> inst.outputs != []
  {
    assert |OutState(inst, 0, 0).outputs| == |inst.outputs|;
    assert |Phase(inst, true, |inst.outputs|).outputs| == |inst.outputs|;
  }

  /** An instance with outputs is refused without both of their levels. */
  lemma LevelsNeeded(st: Style, inst: Inst, k: string)
    requires Canonical(inst) && inst.outputs != []
    requires k == "" || k == ";" + ("out_ok" + ("[" + OutText(inst.outputs, true, 0, "]")))
    ensures InputsNamed(inst)
    ensures Parse(inst.name + CfgSection(st, inst, WatchSection(st, inst, k))) ==
            Failed(if k == "" then MissingOutOk else MissingOutErr, None)
  {
    CanonicalNamed(inst);
    var watches := WatchSection(st, inst, k);
    var a := CfgSection(st, inst, watches);
    WatchEnds(st, inst, k);
    assert OutText(inst.outputs, true, 0, "]" + "") == OutText(inst.outputs, true, 0, "]") by {
      assert "]" + "" == "]";
    }
    hide *;
    CanonicalName(inst);
    WordRead(inst.name, a);
    StartState(inst);
    PhaseEnds(inst);
    StatesKeepOutputs(inst);
    Parts(inst.name, a);
    CfgSectionRead(st, inst, watches);
    WatchSectionRead(st, inst, k);
    var p := Progress(OutState(inst, 0, 0), false, false);
    if k == "" {
      NothingLeft(p);
      Unfinished(inst.name + a, Ident(inst.name[0], inst.name), a, p);
    } else {
      var q := Progress(Phase(inst, true, |inst.outputs|), true, false);
      OutSectionRead(inst, true, p, "");
      NothingLeft(q);
      Unfinished(inst.name + a, Ident(inst.name[0], inst.name), a, q);
    }
  }

  lemma WatchEnds(st: Style, inst: Inst, k: string)
    requires InputsNamed(inst) && inst.outputs != []
    ensures Ends(CfgSection(st, inst, WatchSection(st, inst, k)))
  {
    OutputsListed(inst);
    hide CfgText, WatchSection, PinsOf;
  }

  /** What a level amounts to once its name and its number are read. */
  function Levelled(inst: Inst, isOk: bool, word: string, n: nat, k: string): Read<Inst> {
    if n > 1 then Err(BadNumber, k)
    else if Lookup(word).None? then Err(UnknownPin, k)
    else
      var i := FindOutput(inst, PhysId(Lookup(word).value));
      if i < 0 then Err(OutputUndecl, k)
      else
        Ok(inst.(outputs := inst.outputs[i := if isOk then inst.outputs[i].(okValue := n)
                                              else inst.outputs[i].(errValue := n)]), k)
  }

  lemma ValueIs(s: string, inst: Inst, isOk: bool, id: Ident, a: string, b: string, n: nat, k: string)
    requires ReadIdent(s) == Some((id, a)) && Consume(a, ':') == (true, b) && ReadNumber(b) == Ok(n, k)
    ensures OutValue(s, inst, isOk) == Levelled(inst, isOk, id.word, n, k)
  {
    hide ReadIdent, Consume, ReadNumber, Lookup, FindOutput, PhysId;
  }

  lemma LevelIs(name: string, n: nat, k: string, inst: Inst, isOk: bool)
    requires Word(name) && n < 0x10000 && Ends(k)
    ensures OutValue(name + (":" + (Dec(n) + k)), inst, isOk) == Levelled(inst, isOk, name, n, k)
  {
    var d := Dec(n) + k;
    assert name != "" by {
      assert 0 < |name|;
    }
    hide *;
    Comma(d);
    WordRead(name, ":" + d);
    CommaNoSpace();
    Hit(':', d);
    NumberRead(n, k);
    ValueIs(name + (":" + d), inst, isOk, Ident(name[0], name), ":" + d, d, n, k);
  }

  /** A level is 0 or 1, of a declared output, and sets that level of that output only. */
  lemma LevelTaken(name: string, n: nat, k: string, inst: Inst, isOk: bool, i: nat)
    requires Word(name) && n < 0x10000 && Ends(k)
    ensures var r, pin := OutValue(name + (":" + (Dec(n) + k)), inst, isOk), Lookup(name);
      && (n > 1 ==> r == Err(BadNumber, k))
      && (n <= 1 && pin.None? ==> r == Err(UnknownPin, k))
      && (n <= 1 && pin.Some?
          && (forall j :: 0 <= j < |inst.outputs| ==> inst.outputs[j].phys != PhysId(pin.value)) ==>
            r == Err(OutputUndecl, k))
      && (n <= 1 && pin.Some? && i < |inst.outputs| && inst.outputs[i].phys == PhysId(pin.value)
          && (forall j :: 0 <= j < i ==> inst.outputs[j].phys != PhysId(pin.value)) ==>
            r == Ok(inst.(outputs := inst.outputs[i := if isOk then inst.outputs[i].(okValue := n)
                                                       else inst.outputs[i].(errValue := n)]), k))
  {
    hide OutValue, Lookup, PhysId, Word, Ends, Dec;
    LevelIs(name, n, k, inst, isOk);
  }
}
