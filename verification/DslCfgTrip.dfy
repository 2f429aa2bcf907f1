/** Reading back a printed cfg section, through the look past each comma that tells a further modifier
    from the next pin. */
module DslCfgTrip {
  import opened BoardPins
  import opened Dsl
  import opened DslSoundness
  import opened DslPrint
  import opened DslTokens
  import P = DslParser

  // ---- Modifiers ----------------------------------------------------------------------

  predicate PinOk(p: Pin) {
    match p
    case InPin(x) => InputOk(x) && x.mode != Virtual
    case OutPin(o) => OutputOk(o)
  }

  function GroupOf(p: Pin): Group {
    match p
    case OutPin(o) => OutGroup(o.openDrain)
    case InPin(x) => if x.mode == Adc then AdcGroup(x.oversample, x.shCyc, x.hyst) else GpioGroup(x.mode, x.debounce)
  }

  /** A list of words of which all but the first are known modifiers. */
  predicate ModWords(mods: seq<string>) {
    && mods != [] && (forall i :: 0 <= i < |mods| ==> Word(mods[i]))
    && forall i :: 1 <= i < |mods| ==> IsKnownModifier(mods[i])
  }

  lemma PlainWords()
    ensures Word("in") && Word("up") && Word("down") && Word("adc") && Word("out") && Word("oc")
    ensures Word("oversample_") && Word("sh_") && Word("hyst_") && Word("debounce_")
  {
  }

  lemma Param(prefix: string, n: nat) returns (m: string)
    requires n <= 65535 && prefix in {"oversample_", "sh_", "hyst_", "debounce_"}
    ensures m == prefix + Dec(n) && Word(m) && m[0] == prefix[0] && |m| > |prefix|
    ensures IsParam(m, prefix) && ParamValue(m, prefix) == Some(n) && IsKnownModifier(m)
  {
    PlainWords();
    m := prefix + Dec(n);
    hide Word, Dec;
    ParamRead(prefix, n);
    ParamWord(prefix, n);
  }

  lemma OversampleRead(o: nat, sh: nat, h: nat, e: nat)
    requires e <= 4
    ensures var m := "oversample_" + Dec(Samples(e));
      Word(m) && IsKnownModifier(m) && Qualify(AdcGroup(o, sh, h), m) == Good(AdcGroup(e, sh, h))
  {
    var m := Param("oversample_", Samples(e));
    hide Word, Dec, IsParam, IsKnownModifier;
  }

  lemma ShRead(o: nat, sh: nat, h: nat, n: nat)
    requires n <= 63
    ensures var m := "sh_" + Dec(n);
      Word(m) && IsKnownModifier(m) && Qualify(AdcGroup(o, sh, h), m) == Good(AdcGroup(o, n, h))
  {
    var m := Param("sh_", n);
    NotParam(m, "oversample_");
    hide Word, Dec, IsParam, IsKnownModifier;
  }

  lemma HystRead(o: nat, sh: nat, h: nat, n: nat)
    requires n <= 65535
    ensures var m := "hyst_" + Dec(n);
      Word(m) && IsKnownModifier(m) && Qualify(AdcGroup(o, sh, h), m) == Good(AdcGroup(o, sh, n))
  {
    var m := Param("hyst_", n);
    NotParam(m, "oversample_");
    NotParam(m, "sh_");
    hide Word, Dec, IsParam, IsKnownModifier;
  }

  lemma DebounceRead(mode: PinMode, d: nat, n: nat)
    requires 2 <= n <= 15
    ensures var m := "debounce_" + Dec(n);
      Word(m) && IsKnownModifier(m) && Qualify(GpioGroup(mode, d), m) == Good(GpioGroup(mode, n))
  {
    var m := Param("debounce_", n);
    hide Word, Dec, IsParam, IsKnownModifier;
  }

  lemma Qualify1(g: Group, a: string)
    ensures QualifyAll(g, [a]) == Qualify(g, a)
  {
    hide Qualify;
    assert [a][1..] == [];
  }

  lemma Qualify2(g: Group, a: string, b: string)
    ensures QualifyAll(g, [a, b]) ==
      if Qualify(g, a).Bad? then Qualify(g, a) else Qualify(Qualify(g, a).value, b)
  {
    assert [a, b][1..] == [b];
    if Qualify(g, a).Good? {
      Qualify1(Qualify(g, a).value, b);
    }
    hide Qualify;
  }

  lemma {:induction false} QualifyBoth(g: Group, a: seq<string>, b: seq<string>)
    ensures QualifyAll(g, a + b) ==
            if QualifyAll(g, a).Bad? then QualifyAll(g, a) else QualifyAll(QualifyAll(g, a).value, b)
    decreases |a|
  {
    hide Qualify;
    if a == [] {
      assert a + b == b;
    } else {
      assert (a + b)[1..] == a[1..] + b;
      if Qualify(g, a[0]).Good? {
        QualifyBoth(Qualify(g, a[0]).value, a[1..], b);
      }
    }
  }

  lemma QualifyUnless(g: Group, b: bool, m: string, h: Group)
    requires Qualify(g, m) == Good(h) && (b ==> g == h)
    ensures QualifyAll(g, Unless(b, m)) == Good(h)
  {
    hide Qualify;
    Qualify1(g, m);
  }

  lemma Settings(g: Group, a: seq<string>, b: seq<string>, c: seq<string>, h: Group, i: Group, j: Group)
    requires QualifyAll(g, a) == Good(h) && QualifyAll(h, b) == Good(i) && QualifyAll(i, c) == Good(j)
    ensures QualifyAll(g, a + (b + c)) == Good(j)
  {
    hide QualifyAll;
    QualifyBoth(g, a, b + c);
    QualifyBoth(h, b, c);
  }

  lemma AdcModsOk(st: Style, o: nat, sh: nat, h: nat)
    requires o <= 4 && sh <= 63 && h <= 65535
    ensures ModWords(AdcMods(st, o, sh, h)) && Resolve(AdcMods(st, o, sh, h)) == Good(AdcGroup(o, sh, h))
  {
    PlainWords();
    OversampleRead(0, 4, 0, o);
    ShRead(o, 4, 0, sh);
    HystRead(o, sh, 0, h);
    hide Word, Dec, Qualify, IsKnownModifier, Samples, QualifyAll;
    var f0, f1, f2 := st.short && o == 0, st.short && sh == 4, st.short && h == 0;
    var m0, m1, m2 := "oversample_" + Dec(Samples(o)), "sh_" + Dec(sh), "hyst_" + Dec(h);
    QualifyUnless(AdcGroup(0, 4, 0), f0, m0, AdcGroup(o, 4, 0));
    QualifyUnless(AdcGroup(o, 4, 0), f1, m1, AdcGroup(o, sh, 0));
    QualifyUnless(AdcGroup(o, sh, 0), f2, m2, AdcGroup(o, sh, h));
    var rest := Unless(f0, m0) + (Unless(f1, m1) + Unless(f2, m2));
    Settings(AdcGroup(0, 4, 0), Unless(f0, m0), Unless(f1, m1), Unless(f2, m2),
      AdcGroup(o, 4, 0), AdcGroup(o, sh, 0), AdcGroup(o, sh, h));
    assert AdcMods(st, o, sh, h) == ["adc"] + rest;
    AdcFirst(rest);
  }

  lemma AdcFirst(rest: seq<string>)
    ensures Resolve(["adc"] + rest) == QualifyAll(AdcGroup(0, 4, 0), rest)
  {
    assert (["adc"] + rest)[1..] == rest;
    hide QualifyAll;
  }

  lemma GpioModsOk(mode: PinMode, d: nat)
    requires mode in {In, InUp, InDown} && (d == 0 || 2 <= d <= 15)
    ensures ModWords(GpioMods(mode, d)) && Resolve(GpioMods(mode, d)) == Good(GpioGroup(mode, d))
  {
    PlainWords();
    UpDown();
    if d != 0 {
      DebounceRead(mode, 0, d);
    }
    hide Word, Dec, Qualify, IsKnownModifier;
    var m := GpioMods(mode, d);
    if |m| == 2 {
      assert m[1..] == [m[1]];
      Qualify1(GpioGroup(In, 0), m[1]);
    } else if |m| == 3 {
      assert m[1..] == [m[1], m[2]];
      Qualify2(GpioGroup(In, 0), m[1], m[2]);
    } else {
      assert m[1..] == [];
    }
  }

  lemma UpDown()
    ensures Qualify(GpioGroup(In, 0), "up") == Good(GpioGroup(InUp, 0))
    ensures Qualify(GpioGroup(In, 0), "down") == Good(GpioGroup(InDown, 0))
    ensures Qualify(OutGroup(1), "up") == Good(OutGroup(2))
    ensures IsKnownModifier("up") && IsKnownModifier("down")
  {
    hide IsParam;
  }

  lemma OutModsOk(od: nat)
    requires od <= 2
    ensures ModWords(OutMods(od)) && Resolve(OutMods(od)) == Good(OutGroup(od))
  {
    PlainWords();
    UpDown();
    hide Word, Qualify, IsKnownModifier;
    var m := OutMods(od);
    if od == 2 {
      assert m[1..] == [m[1]];
      Qualify1(OutGroup(1), m[1]);
    } else {
      assert m[1..] == [];
    }
  }

  /** The printed modifiers of a pin mean the pin's configuration. */
  lemma ModsOk(st: Style, p: Pin)
    requires PinOk(p)
    ensures ModWords(Mods(st, p)) && Resolve(Mods(st, p)) == Good(GroupOf(p))
  {
    hide ModWords, Resolve, AdcMods, GpioMods, OutMods, OnBoard;
    match p
    case OutPin(o) => OutModsOk(o.openDrain);
    case InPin(x) =>
      if x.mode == Adc {
        AdcModsOk(st, x.oversample, x.shCyc, x.hyst);
      } else {
        GpioModsOk(x.mode, x.debounce);
      }
  }

  // ---- Where a list of modifiers ends -------------------------------------------------

  /** A text that ends a list of modifiers: a bracket, or a comma before another pin. */
  predicate Closes(k: string) {
    k != "" && (k[0] == ']' || (k[0] == ',' && SkipWs(k[1..]) == k[1..] && !ModifierFollows(k[1..])))
  }

  lemma ClosesEnds(k: string)
    requires Closes(k)
    ensures k != "" && (k[0] == ']' || k[0] == ',') && Ends(k)
  {
    assert k != "" && (k[0] == ']' || k[0] == ',');
    hide *;
    Separator(k);
  }

  lemma Separator(k: string)
    requires k != "" && (k[0] == ']' || k[0] == ',')
    ensures Ends(k)
  {
  }

  lemma Comma(k: string)
    ensures Ends("," + k) && Ends(":" + k) && Ends(")" + k) && Ends("]" + k) && Ends("[" + k)
    ensures Ends("|" + k) && Ends(";" + k)
  {
  }

  lemma ModsHead(mods: seq<string>, k: string) returns (t: string)
    requires ModWords(mods) && Closes(k)
    ensures ModsText(mods, k) == mods[0] + t && Ends(t)
  {
    hide SkipWs, ModifierFollows, Word, IsKnownModifier;
    ClosesEnds(k);
    if |mods| == 1 {
      t := k;
    } else {
      t := "," + ModsText(mods[1..], k);
      Comma(ModsText(mods[1..], k));
    }
  }

  lemma ModWordsTail(mods: seq<string>)
    requires ModWords(mods) && |mods| > 1
    ensures ModWords(mods[1..]) && mods[1..][0] == mods[1] && IsKnownModifier(mods[1])
  {
    hide Word, IsKnownModifier;
  }

  lemma KnownFollows(mods: seq<string>, k: string)
    requires ModWords(mods) && Closes(k) && IsKnownModifier(mods[0])
    ensures var t := ModsText(mods, k); SkipWs(t) == t && ModifierFollows(t)
  {
    var r := ModsHead(mods, k);
    WordRead(mods[0], r);
    hide SkipWs, ReadIdent, IsKnownModifier, ModsText, Closes;
  }

  lemma AfterComma(k: string)
    requires Closes(k) && k[0] == ','
    ensures Consume(k, ',') == (true, k[1..]) && SkipWs(k[1..]) == k[1..] && !ModifierFollows(k[1..])
  {
    assert SkipWs(k[1..]) == k[1..] && !ModifierFollows(k[1..]);
    hide *;
    assert [','] + k[1..] == k;
    CommaNoSpace();
    Hit(',', k[1..]);
  }

  lemma CommaNoSpace()
    ensures !IsSpace(',') && !IsSpace(']') && !IsSpace(':') && !IsSpace('(') && !IsSpace(')') && !IsSpace('|')
    ensures !IsSpace(';') && !IsSpace('[')
  {
  }

  /** At the end of the list the text that follows is left alone, its comma included. */
  lemma LastMod(m: string, acc: seq<string>, k: string)
    requires Word(m) && Closes(k) && |acc| < 4
    ensures ModList(m + k, acc) == Ok(acc + [m], k)
  {
    ClosesEnds(k);
    WordRead(m, k);
    if k[0] == ',' {
      AfterComma(k);
    } else {
      CommaNoSpace();
      Miss(k, ',');
    }
    hide *;
    P.ModListStep(m + k, acc);
  }

  lemma NextMod(m: string, acc: seq<string>, t: string)
    requires Word(m) && |acc| < 4 && SkipWs(t) == t && ModifierFollows(t)
    ensures ModList(m + ("," + t), acc) == ModList(t, acc + [m])
  {
    hide *;
    Comma(t);
    WordRead(m, "," + t);
    CommaNoSpace();
    Hit(',', t);
    P.ModListStep(m + ("," + t), acc);
  }

  lemma OneMore<T>(a: seq<T>, b: seq<T>)
    requires b != []
    ensures a + [b[0]] + b[1..] == a + b
    ensures |b| == 1 ==> a + [b[0]] == a + b
  {
  }

  lemma ModsTextStep(mods: seq<string>, k: string)
    requires mods != []
    ensures ModsText(mods, k) == if |mods| == 1 then mods[0] + k else mods[0] + ("," + ModsText(mods[1..], k))
  {
  }

  /** A printed list of modifiers is read back up to the bracket or to the next pin. */
  lemma {:induction false} ModListRead(mods: seq<string>, acc: seq<string>, k: string)
    requires ModWords(mods) && Closes(k) && |acc| + |mods| <= 4
    ensures ModList(ModsText(mods, k), acc) == Ok(acc + mods, k)
    decreases |mods|
  {
    assert Word(mods[0]) && mods != [];
    if |mods| > 1 {
      ModWordsTail(mods);
    }
    hide *;
    ModsTextStep(mods, k);
    if |mods| == 1 {
      LastMod(mods[0], acc, k);
      OneMore(acc, mods);
    } else {
      ModListRead(mods[1..], acc + [mods[0]], k);
      KnownFollows(mods[1..], k);
      NextMod(mods[0], acc, ModsText(mods[1..], k));
      OneMore(acc, mods);
    }
  }

  // ---- Pins ---------------------------------------------------------------------------

  lemma LabelWord(phys: nat)
    requires OnBoard(phys)
    ensures Word(LabelOf(phys)) && !IsKnownModifier(LabelOf(phys)) && LabelOf(phys)[0] in {'A', 'D'}
  {
    LabelRoundTrip(phys);
    var n := LabelOf(phys);
    hide Lookup, LabelOf, OnBoard;
    LabelShape(n);
    hide *;
    LabelUnknown(n);
  }

  lemma LabelShape(n: string)
    requires 2 <= |n| <= 3 && n[0] in {'A', 'D'} && forall c :: c in n[1..] ==> '0' <= c <= '9'
    ensures Word(n)
  {
    forall i | 0 <= i < |n|
      ensures IsCont(n[i])
    {
      if i > 0 {
        assert n[i] in n[1..] by { assert n[1..][i - 1] == n[i]; }
      }
    }
  }

  lemma LabelUnknown(n: string)
    requires n != "" && n[0] in {'A', 'D'}
    ensures !IsKnownModifier(n)
  {
    NotParam(n, "oversample_");
    NotParam(n, "sh_");
    NotParam(n, "hyst_");
    NotParam(n, "debounce_");
    UpperNotPlain(n);
    hide IsParam;
  }

  lemma UpperNotPlain(n: string)
    requires n != "" && n[0] in {'A', 'D'}
    ensures n != "in" && n != "out" && n != "adc" && n != "up" && n != "down"
  {
  }

  lemma PinsRead(st: Style, name: string, k: string)
    requires Word(name) && name[0] != '('
    ensures var t := PinText(st, name, k); SkipWs(t) == t && Pins(t) == Ok([name], ":" + k)
  {
    var t := PinText(st, name, k);
    Comma(k);
    Comma(":" + k);
    if st.bare {
      BarePin(name, ":" + k);
    } else {
      ParenPin(name, ":" + k);
    }
  }

  lemma BarePin(name: string, k: string)
    requires Word(name) && name[0] != '(' && Ends(k)
    ensures SkipWs(name + k) == name + k && Pins(name + k) == Ok([name], k)
  {
    WordRead(name, k);
    Parts(name, k);
    assert IsCont(name[0]);
    StartNoSpace(name[0]);
    Miss(name + k, '(');
    hide ReadIdent, Consume, SkipWs, PinList, Word, Ends, Peek;
  }

  lemma ParenPin(name: string, k: string)
    requires Word(name)
    ensures var t := "(" + (name + (")" + k)); SkipWs(t) == t && Pins(t) == Ok([name], k)
  {
    var u := name + (")" + k);
    Comma(k);
    WordRead(name, ")" + k);
    NoSkip("(" + u);
    Hit('(', u);
    Miss(")" + k, ',');
    Hit(')', k);
    P.PinListStep(u, []);
    assert [] + [name] == [name];
    hide ReadIdent, Consume, SkipWs, PinList, Word;
  }
}
