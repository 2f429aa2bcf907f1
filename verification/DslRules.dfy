/** Which modifiers, pins, watches and levels the interlock language takes, and what it answers to the
    others. */
module DslRules {
  import opened BoardPins
  import opened Dsl

  predicate Within(m: string, prefix: string, low: nat, high: nat) {
    IsParam(m, prefix) && ParamValue(m, prefix).Some? && low <= ParamValue(m, prefix).value <= high
  }

  lemma SampleCounts(n: nat)
    ensures SampleExp(n).Some? <==> n in [1, 2, 4, 8, 16]
  {
  }

  lemma NotBoth(m: string)
    ensures m == "up" || m == "down" ==>
      !IsParam(m, "oversample_") && !IsParam(m, "sh_") && !IsParam(m, "hyst_") && !IsParam(m, "debounce_")
    ensures IsParam(m, "oversample_") ==> !IsParam(m, "sh_") && !IsParam(m, "hyst_") && !IsParam(m, "debounce_")
    ensures IsParam(m, "sh_") ==> !IsParam(m, "hyst_") && !IsParam(m, "debounce_")
    ensures IsParam(m, "hyst_") ==> !IsParam(m, "debounce_")
  {
    hide AllDigits;
    assert IsParam(m, "oversample_") ==> m[0] == 'o';
    assert IsParam(m, "sh_") ==> m[0] == 's';
    assert IsParam(m, "hyst_") ==> m[0] == 'h';
    assert IsParam(m, "debounce_") ==> |m| > 9 && m[0] == 'd';
  }

  /** What a pin may be: an input, an output, pushed or pulled, or a converter input. */
  lemma FirstTaken(m: string)
    ensures FirstModifier(m).Good? <==> m == "in" || m == "out" || m == "oc" || m == "adc"
    ensures FirstModifier(m).Bad? ==> FirstModifier(m).status == UnknownMode
  {
  }

  /** What may be said of a converter input: 1, 2, 4, 8 or 16 samples, up to 63 cycles, a dead band. */
  lemma AdcTaken(g: Group, m: string)
    requires g.AdcGroup?
    ensures Qualify(g, m).Good? <==>
      || (IsParam(m, "oversample_") && ParamValue(m, "oversample_").Some?
          && ParamValue(m, "oversample_").value in [1, 2, 4, 8, 16])
      || Within(m, "sh_", 0, 63) || Within(m, "hyst_", 0, 65535)
    ensures var q := Qualify(g, m); q.Bad? ==>
      q.status == if IsParam(m, "oversample_") then OversampleOutOfRange
                  else if IsParam(m, "sh_") then ShOutOfRange
                  else if IsParam(m, "hyst_") then ThresholdOutOfRange
                  else if IsParam(m, "debounce_") then DebounceNotOnGpio
                  else UnknownMode
  {
    NotBoth(m);
    if IsParam(m, "oversample_") && ParamValue(m, "oversample_").Some? {
      SampleCounts(ParamValue(m, "oversample_").value);
    }
    hide IsParam, DigitsValue, SampleExp;
  }

  /** What may be said of a digital input: a pull, and a filter of 2 to 15 samples. */
  lemma GpioTaken(g: Group, m: string)
    requires g.GpioGroup?
    ensures Qualify(g, m).Good? <==> m == "up" || m == "down" || Within(m, "debounce_", 2, 15)
    ensures var q := Qualify(g, m); q.Bad? ==>
      q.status == if IsParam(m, "debounce_") then DebounceOutOfRange
                  else if IsParam(m, "hyst_") then HystNotOnAdc
                  else if IsParam(m, "oversample_") || IsParam(m, "sh_") then ModifierOnGpio
                  else UnknownMode
  {
    NotBoth(m);
    hide IsParam, DigitsValue;
  }

  /** What may be said of an output: a pull-up, of an open drain. */
  lemma OutTaken(g: Group, m: string)
    requires g.OutGroup?
    ensures Qualify(g, m).Good? <==> g.openDrain != 0 && m == "up"
    ensures var q := Qualify(g, m); q.Bad? ==>
      q.status == if IsParam(m, "hyst_") then HystNotOnAdc
                  else if IsParam(m, "debounce_") then DebounceNotOnGpio
                  else if IsParam(m, "oversample_") || IsParam(m, "sh_") then ModifierOnGpio
                  else UnknownMode
  {
    NotBoth(m);
    hide IsParam;
  }

  /** The six comparisons; no other word is one. */
  lemma OpsTaken(w: string)
    ensures OpOf("eq") == Some(Eq) && OpOf("ne") == Some(Ne) && OpOf("lt") == Some(Lt)
    ensures OpOf("gt") == Some(Gt) && OpOf("le") == Some(Le) && OpOf("ge") == Some(Ge)
    ensures w !in ["eq", "ne", "lt", "gt", "le", "ge"] ==> OpOf(w).None?
  {
    assert "eq"[0] == 'e' && "ne"[0] == 'n' && "lt"[0] == 'l' && "gt"[0] == 'g' && "le"[0] == 'l' && "ge"[0] == 'g';
    assert "lt"[1] == 't' && "le"[1] == 'e' && "gt"[1] == 't' && "ge"[1] == 'e';
  }

  // ---- Pins, watches and levels -------------------------------------------------------

  ghost predicate Uses(inst: Inst, phys: nat) {
    || (exists i :: 0 <= i < |inst.inputs| && inst.inputs[i].phys == phys)
    || (exists i :: 0 <= i < |inst.outputs| && inst.outputs[i].phys == phys)
  }

  /** A pin is recorded unless its label is unknown, it is declared already, or there is no room: four
      inputs and two outputs at the most. */
  lemma PinTaken(inst: Inst, g: Group, name: string)
    ensures var r, bp := RecordPin(inst, g, name), Lookup(name);
      && (bp.None? ==> r == Bad(UnknownPin))
      && (bp.Some? && Uses(inst, PhysId(bp.value)) ==> r == Bad(DuplicatePin))
      && (bp.Some? && !Uses(inst, PhysId(bp.value)) && g.OutGroup? ==>
            r == if |inst.outputs| >= 2 then Bad(TooManyOutputs)
                 else Good(inst.(outputs := inst.outputs + [Output(PhysId(bp.value), 0, 0, g.openDrain)])))
      && (bp.Some? && !Uses(inst, PhysId(bp.value)) && g.AdcGroup? ==>
            r == if |inst.inputs| >= 4 then Bad(TooManyInputs)
                 else Good(inst.(inputs := inst.inputs +
                             [Input(PhysId(bp.value), Adc, g.oversample, g.shCyc, 0, g.hyst)])))
      && (bp.Some? && !Uses(inst, PhysId(bp.value)) && g.GpioGroup? ==>
            r == if |inst.inputs| >= 4 then Bad(TooManyInputs)
                 else Good(inst.(inputs := inst.inputs + [Input(PhysId(bp.value), g.mode, 0, 0, g.debounce, 0)])))
  {
    hide Lookup, PhysId;
  }

  /** A watch names a declared input; nine are too many; a dead band takes no `eq` and no `ne`. */
  lemma WatchTaken(inst: Inst, id: Ident, op: Op, threshold: nat, group: nat, i: nat)
    requires id.first != '_' && Lookup(id.word).Some?
    requires i < |inst.inputs| && inst.inputs[i].phys == PhysId(Lookup(id.word).value)
    requires forall k :: 0 <= k < i ==> inst.inputs[k].phys != inst.inputs[i].phys
    ensures AddWatch(inst, id, op, threshold, group) ==
      if inst.inputs[i].hyst != 0 && (op == Eq || op == Ne) then Bad(HystOnEqNe)
      else if |inst.watches| >= 8 then Bad(TooManyWatches)
      else Good(inst.(watches := inst.watches + [Watch(i, op, threshold, group)]))
  {
    hide Lookup, PhysId;
  }

  lemma WatchRefused(inst: Inst, id: Ident, op: Op, threshold: nat, group: nat)
    requires id.first != '_'
    ensures Lookup(id.word).None? ==> AddWatch(inst, id, op, threshold, group) == Bad(UnknownPin)
    ensures Lookup(id.word).Some?
            && (forall k :: 0 <= k < |inst.inputs| ==> inst.inputs[k].phys != PhysId(Lookup(id.word).value)) ==>
              AddWatch(inst, id, op, threshold, group) == Bad(WatchInputUndecl)
  {
    hide Lookup, PhysId;
  }

  /** The three virtual inputs need no declaration, only room for one more input. */
  lemma VirtualTaken(inst: Inst, id: Ident, op: Op, threshold: nat, group: nat)
    requires id.first == '_'
    ensures VirtLookup("_t_since_m2s") == Some(0xF0) && VirtLookup("_uptime") == Some(0xF1)
    ensures VirtLookup("_stack_hwm") == Some(0xF2)
    ensures id.word !in ["_t_since_m2s", "_uptime", "_stack_hwm"] ==>
      AddWatch(inst, id, op, threshold, group) == Bad(UnknownVirtual)
    ensures VirtLookup(id.word).Some?
            && (forall k :: 0 <= k < |inst.inputs| ==> inst.inputs[k].phys != VirtLookup(id.word).value) ==>
              AddWatch(inst, id, op, threshold, group) ==
              if |inst.inputs| >= 4 then Bad(TooManyInputs)
              else if |inst.watches| >= 8 then Bad(TooManyWatches)
              else Good(inst.(inputs := inst.inputs + [Input(VirtLookup(id.word).value, Virtual, 0, 0, 0, 0)],
                              watches := inst.watches + [Watch(|inst.inputs|, op, threshold, group)]))
  {
    VirtualNames(id.word);
    hide VirtLookup;
  }

  lemma VirtualNames(w: string)
    ensures VirtLookup("_t_since_m2s") == Some(0xF0) && VirtLookup("_uptime") == Some(0xF1)
    ensures VirtLookup("_stack_hwm") == Some(0xF2)
    ensures w !in ["_t_since_m2s", "_uptime", "_stack_hwm"] ==> VirtLookup(w).None?
  {
    assert "_t_since_m2s"[1] == 't' && "_uptime"[1] == 'u' && "_stack_hwm"[1] == 's';
  }
}
