/** An interlock that a host can arm and that, having passed once, never objects again. */
module InterlockStuck {
  import opened BoardPins
  import opened Dsl
  import opened DslPrint
  import opened DslRoundTrip
  import opened DslSoundness
  import opened InterlockEval
  import opened InterlockHistory

  const MODS := "adc,hyst_100"
  const IN := "D0:adc,hyst_100"
  const OUT := "D1:out"
  const WATCH := "D0:ge:100"
  const OUTS := ";out_ok[" + ("D1:1" + ("]" + (";out_err[" + ("D1:0" + ("]" + "")))))
  const WATCHES := ";watch[" + (WATCH + ("]" + OUTS))
  const TEXT := "x" + (";cfg[" + (IN + ("," + (OUT + ("]" + WATCHES)))))

  function Stuck(): Inst {
    Inst("x", [Input(2, Adc, 0, 4, 0, 100)], [Watch(0, Ge, 100, 0)], [Output(4, 1, 0, 0)], Unevaluated)
  }

  lemma StuckParts()
    ensures InputOk(Stuck().inputs[0]) && OutputOk(Stuck().outputs[0]) && WatchOk(Stuck().inputs, Stuck().watches[0], 0)
  {
    assert PhysAt(0) == 2 && PhysAt(1) == 4;
  }

  lemma StuckAccepted()
    ensures Accepted(Stuck()) && Word(Stuck().name)
  {
    StuckParts();
    hide InputOk, OutputOk, WatchOk;
  }

  lemma StuckCanonical()
    ensures Canonical(Stuck()) && InputsNamed(Stuck()) && Shaped(Stuck())
  {
    StuckAccepted();
    hide Accepted, Word;
    assert Physical(Stuck().inputs) == 1;
    assert DeclaredBy(Stuck(), 1) == 1;
  }

  lemma Decimals()
    ensures Dec(0) == "0" && Dec(1) == "1" && Dec(100) == "100"
  {
    assert Dec(10) == Dec(1) + "0";
    assert Dec(100) == Dec(10) + "0";
  }

  lemma LabelAt(i: nat, phys: nat)
    requires i < 2 && phys == PhysId(Entry(i))
    ensures LabelOf(phys) == "D" + Digits(i)
  {
    assert FindFrom(phys, 0) == if i == 0 then Some(Entry(0)) else FindFrom(phys, 1);
    assert FindFrom(phys, i) == Some(Entry(i));
  }

  lemma Labels()
    ensures LabelOf(2) == "D0" && LabelOf(4) == "D1"
  {
    assert PhysId(Entry(0)) == 2 && PhysId(Entry(1)) == 4 && Digits(0) == "0" && Digits(1) == "1";
    hide LabelOf, Entry, PhysId, Digits;
    LabelAt(0, 2);
    LabelAt(1, 4);
  }

  lemma Joined(a: string, b: string, c: string, z: string)
    ensures a + (b + (c + z)) == (a + b + c) + z
  {
  }

  lemma StuckLevels(isOk: bool, k: string)
    ensures OutText(Stuck().outputs, isOk, 0, k) == (if isOk then "D1:1" else "D1:0") + k
  {
    Decimals();
    Labels();
    hide LabelOf, Dec;
    Joined("D1", ":", if isOk then "1" else "0", k);
  }

  lemma WatchPiece()
    ensures "D0" + ":" + ("ge" + ":" + "100") == WATCH
  {
  }

  lemma StuckWatch(k: string)
    requires InputsNamed(Stuck())
    ensures WatchText(Style(true, true, Decimal), Stuck(), 0, k) == WATCH + k
  {
    Decimals();
    Labels();
    WatchPiece();
    hide LabelOf, Dec, WATCH;
    Joined("ge", ":", "100", k);
    Joined("D0", ":", "ge" + ":" + "100", k);
  }

  lemma TwoMods(a: string, b: string, k: string)
    ensures ModsText([a, b], k) == (a + "," + b) + k
  {
    assert [a, b][1..] == [b];
    Joined(a, ",", b, k);
  }

  lemma ModsPiece()
    ensures "adc" + "," + "hyst_100" == MODS
  {
  }

  lemma AdcPieces()
    ensures AdcMods(Style(true, true, Decimal), 0, 4, 100) == ["adc", "hyst_100"]
  {
    Decimals();
    hide Dec;
    assert "hyst_" + "100" == "hyst_100";
  }

  lemma StuckMods(k: string)
    ensures ModsText(AdcMods(Style(true, true, Decimal), 0, 4, 100), k) == MODS + k
  {
    hide *;
    AdcPieces();
    ModsPiece();
    TwoMods("adc", "hyst_100", k);
  }

  lemma StuckPins()
    ensures PinsOf(Stuck()) == [InPin(Stuck().inputs[0]), OutPin(Stuck().outputs[0])]
  {
  }

  lemma InPiece()
    ensures "D0" + ":" + MODS == IN
  {
  }

  lemma StuckIn(k: string)
    ensures GroupText(Style(true, true, Decimal), InPin(Stuck().inputs[0]), k) == IN + k
  {
    Labels();
    hide LabelOf, Dec, ModsText, AdcMods, MODS, IN;
    StuckMods(k);
    InPiece();
    Joined("D0", ":", MODS, k);
  }

  lemma StuckOut(k: string)
    ensures GroupText(Style(true, true, Decimal), OutPin(Stuck().outputs[0]), k) == OUT + k
  {
    Labels();
    hide LabelOf;
    Joined("D1", ":", "out", k);
  }

  lemma StuckCfg(k: string)
    ensures CfgText(Style(true, true, Decimal), PinsOf(Stuck()), k) == IN + ("," + (OUT + k))
  {
    StuckPins();
    hide GroupText, PinsOf, IN, OUT;
    StuckOut(k);
    StuckIn("," + (OUT + k));
    assert PinsOf(Stuck())[1..] == [OutPin(Stuck().outputs[0])];
  }

  lemma StuckOuts()
    ensures OutSections(Stuck(), "") == OUTS
  {
    var last := "D1:0" + ("]" + "");
    var err := ";out_err[" + last;
    var ok := "D1:1" + ("]" + err);
    assert OUTS == ";out_ok[" + ok;
    hide OutText, OUTS;
    StuckLevels(false, "]" + "");
    Joined(";", "out_err", "[", last);
    assert ";" + "out_err" + "[" == ";out_err[" && ";" + "out_ok" + "[" == ";out_ok[";
    StuckLevels(true, "]" + err);
    Joined(";", "out_ok", "[", ok);
  }

  lemma Brackets(z: string)
    ensures ";" + ("watch" + ("[" + z)) == ";watch[" + z
    ensures ";" + ("cfg" + ("[" + z)) == ";cfg[" + z
  {
    Joined(";", "watch", "[", z);
    Joined(";", "cfg", "[", z);
    assert ";" + "watch" + "[" == ";watch[" && ";" + "cfg" + "[" == ";cfg[";
  }

  lemma StuckWatches()
    requires InputsNamed(Stuck())
    ensures WatchSection(Style(true, true, Decimal), Stuck(), OUTS) == WATCHES
  {
    hide WatchText, OUTS, WATCH;
    StuckWatch("]" + OUTS);
    Brackets(WATCH + ("]" + OUTS));
  }

  lemma PrintedParts(cfg: string)
    requires InputsNamed(Stuck()) && CfgSection(Style(true, true, Decimal), Stuck(), WATCHES) == cfg
    requires WatchSection(Style(true, true, Decimal), Stuck(), OUTS) == WATCHES && OutSections(Stuck(), "") == OUTS
    ensures Print(Style(true, true, Decimal), Stuck()) == "x" + cfg
  {
    hide CfgSection, WatchSection, OutSections, WATCHES, OUTS;
  }

  lemma StuckCfgSection()
    ensures CfgSection(Style(true, true, Decimal), Stuck(), WATCHES) == ";cfg[" + (IN + ("," + (OUT + ("]" + WATCHES))))
  {
    StuckPins();
    hide CfgText, PinsOf, WATCHES, IN, OUT;
    StuckCfg("]" + WATCHES);
    Brackets(IN + ("," + (OUT + ("]" + WATCHES))));
  }

  lemma StuckPrinted()
    requires InputsNamed(Stuck())
    ensures Print(Style(true, true, Decimal), Stuck()) == TEXT
  {
    var cfg := ";cfg[" + (IN + ("," + (OUT + ("]" + WATCHES))));
    assert TEXT == "x" + cfg;
    hide *;
    StuckOuts();
    StuckWatches();
    StuckCfgSection();
    PrintedParts(cfg);
  }

  /** The text is accepted. */
  lemma StuckParses()
    ensures Parse(TEXT) == Parsed(Stuck())
  {
    StuckCanonical();
    StuckPrinted();
    hide *;
    ParsePrinted(Style(true, true, Decimal), Stuck());
  }

  /** Once its condition holds it holds for ever, whatever the converter reads. */
  lemma {:induction false} NeverObjects(before: seq<seq<nat>>, after: seq<seq<nat>>)
    requires Shaped(Stuck()) && Sampled(before) && Sampled(after) && Condition(Stuck(), before)
    ensures Sampled(before + after) && Condition(Stuck(), before + after)
    decreases |after|
  {
    if after == [] {
      assert before + after == before;
    } else {
      var init, raw := after[..|after| - 1], after[|after| - 1];
      NeverObjects(before, init);
      assert before + after == (before + init) + [raw];
      OneMore(before + init, raw);
    }
  }

  lemma OneMore(raws: seq<seq<nat>>, raw: seq<nat>)
    requires Shaped(Stuck()) && Sampled(raws) && |raw| == MAX_INPUTS && Condition(Stuck(), raws)
    ensures Sampled(raws + [raw]) && Condition(Stuck(), raws + [raw])
  {
    assert Stuck().watches == [Watch(0, Ge, 100, 0)];
    assert GroupHolds(Stuck(), raws, 0) && Judged(Stuck(), raws, 0);
    assert (raws + [raw])[..|raws|] == raws;
    VerdictSnoc(Ge, Readings(Stuck(), raws, 0), raw[0], 100, 100, false);
    assert Judged(Stuck(), raws + [raw], 0);
    assert GroupHolds(Stuck(), raws + [raw], 0);
  }
}
