/** When a text is taken, spelled out on the pins themselves. */
module InterlockAdmission {
  import opened Dsl
  import opened DslSoundness
  import opened InterlockEval
  import opened PinClaims
  import opened Interlocks
  import opened InterlockLaws
  import opened InterlockRuns
  import BoardPins

  // ---- When the pins of an instance are to be had --------------------------------------

  /** A pin that nobody has, and not one of the I2C bus. */
  predicate Free(t: Table, p: nat) { p < 64 && p != 8 && p != 9 && t[p].owners == {} }

  /** An output pin that is driven already, with these two levels. */
  predicate Shareable(t: Table, p: nat, ok: nat, err: nat) {
    && p < 64 && p != 8 && p != 9 && t[p].owners != {}
    && t[p].mode == GpioOut && t[p].okValue == ok && t[p].errValue == err
  }

  predicate InputFree(t: Table, x: Input) { x.mode != Virtual ==> Free(t, x.phys) }

  predicate OutputFree(t: Table, o: Output) { Free(t, o.phys) || Shareable(t, o.phys, o.okValue, o.errValue) }

  ghost predicate Grantable(t: Table, inst: Inst) {
    && (forall i :: 0 <= i < |inst.inputs| ==> InputFree(t, inst.inputs[i]))
    && (forall i :: 0 <= i < |inst.outputs| ==> OutputFree(t, inst.outputs[i]))
  }

  predicate NeedFree(t: Table, n: Need) {
    match n
    case NeedOut(p, ok, err) => Free(t, p) || Shareable(t, p, ok, err)
    case _ => Free(t, n.phys)
  }

  ghost predicate NeedsFree(t: Table, needs: seq<Need>) {
    forall i :: 0 <= i < |needs| ==> NeedFree(t, needs[i])
  }

  lemma InputNeedFree(t: Table, x: Input)
    ensures x.mode != Virtual ==> (NeedFree(t, NeedOf(x)) <==> InputFree(t, x))
  {
    hide Free;
  }

  lemma {:induction false} InputsFree(t: Table, xs: seq<Input>)
    ensures NeedsFree(t, InputNeeds(xs)) <==> forall i :: 0 <= i < |xs| ==> InputFree(t, xs[i])
    decreases |xs|
  {
    hide NeedOf, NeedFree, Free;
    if xs != [] {
      InputsFree(t, xs[1..]);
      InputNeedFree(t, xs[0]);
      NeedsFreeSplit(t, InputNeeds(xs));
      assert (forall i :: 0 <= i < |xs| ==> InputFree(t, xs[i])) <==>
             InputFree(t, xs[0]) && forall i :: 0 <= i < |xs[1..]| ==> InputFree(t, xs[1..][i]) by {
        InputsSplit(t, xs);
      }
    }
  }

  lemma InputsSplit(t: Table, xs: seq<Input>)
    requires xs != []
    ensures (forall i :: 0 <= i < |xs| ==> InputFree(t, xs[i])) <==>
            InputFree(t, xs[0]) && forall i :: 0 <= i < |xs[1..]| ==> InputFree(t, xs[1..][i])
  {
    hide InputFree;
    if InputFree(t, xs[0]) && forall i :: 0 <= i < |xs[1..]| ==> InputFree(t, xs[1..][i]) {
      forall i | 0 <= i < |xs|
        ensures InputFree(t, xs[i])
      {
        if i > 0 {
          assert xs[i] == xs[1..][i - 1];
        }
      }
    }
  }

  lemma NeedsFreeSplit(t: Table, needs: seq<Need>)
    ensures needs != [] ==> (NeedsFree(t, needs) <==> NeedFree(t, needs[0]) && NeedsFree(t, needs[1..]))
  {
    hide NeedFree;
    if needs != [] && NeedFree(t, needs[0]) && NeedsFree(t, needs[1..]) {
      forall i | 0 <= i < |needs|
        ensures NeedFree(t, needs[i])
      {
        if i > 0 {
          assert needs[i] == needs[1..][i - 1];
        }
      }
    }
  }

  lemma NeedsFreeBoth(t: Table, a: seq<Need>, b: seq<Need>)
    ensures NeedsFree(t, a + b) <==> NeedsFree(t, a) && NeedsFree(t, b)
  {
    hide NeedFree;
    if NeedsFree(t, a + b) {
      forall i | 0 <= i < |a|
        ensures NeedFree(t, a[i])
      {
        assert (a + b)[i] == a[i];
      }
      forall i | 0 <= i < |b|
        ensures NeedFree(t, b[i])
      {
        assert (a + b)[|a| + i] == b[i];
      }
    }
  }

  lemma GrantableNeeds(t: Table, inst: Inst)
    ensures Grantable(t, inst) <==> NeedsFree(t, Needs(inst))
  {
    hide Free, Shareable;
    InputsFree(t, inst.inputs);
    NeedsFreeBoth(t, InputNeeds(inst.inputs), OutputNeeds(inst.outputs));
    var r := OutputNeeds(inst.outputs);
    assert NeedsFree(t, r) <==> forall i :: 0 <= i < |inst.outputs| ==> OutputFree(t, inst.outputs[i]) by {
      assert forall i :: 0 <= i < |r| ==>
        r[i] == NeedOut(inst.outputs[i].phys, inst.outputs[i].okValue, inst.outputs[i].errValue);
      if forall i :: 0 <= i < |inst.outputs| ==> OutputFree(t, inst.outputs[i]) {
        assert forall i :: 0 <= i < |r| ==> OutputFree(t, inst.outputs[i]) && NeedFree(t, r[i]);
      }
      if NeedsFree(t, r) {
        assert forall i :: 0 <= i < |inst.outputs| ==> NeedFree(t, r[i]) && OutputFree(t, inst.outputs[i]);
      }
    }
    hide InputNeeds, OutputNeeds, InputFree, OutputFree, NeedFree;
  }

  /** One request, on a slot that has nothing. */
  lemma OneFree(t: Table, decl: seq<seq<Need>>, slot: nat, n: Need)
    requires |decl| == SLOTS && TableIs(t, decl) && slot < SLOTS && decl[slot] == []
    requires n.phys < PINS && BoardPins.OnBoard(n.phys) && StaticRule(n) == BoardRule(n.phys)
    ensures NeedFree(t, n) <==>
            && BoardRule(n.phys) != Reserved
            && forall s :: 0 <= s < SLOTS && s != slot ==> Compatible(BoardPins.Some(n), At(decl[s], n.phys))
  {
    var p, after := n.phys, decl[slot := [n]];
    BoardPins.ReservedPins(p);
    hide BoardPins.FindPin, BoardPins.OnBoard;
    assert RecordOk(t[p], decl, p);
    AtEmpty(p);
    assert At([n], p) == BoardPins.Some(n);
    assert Holds(t[p], slot, At(decl[slot], p));
    if BoardRule(p) == ClaimOk {
      hide At;
      RecordGrant(t[p], decl, p, slot, n, after);
    }
    hide At, Compatible, Holds, RecordOk, StaticRule;
  }

  lemma NeedsAreFree(t: Table, decl: seq<seq<Need>>, slot: nat, inst: Inst)
    requires |decl| == SLOTS && TableIs(t, decl) && slot < SLOTS && decl[slot] == [] && Accepted(inst)
    ensures Grantable(t, inst) <==> !AsksReserved(Needs(inst)) && Fits(Needs(inst), slot, decl)
  {
    hide TableIs, Needs, NeedFree, Accepted, Compatible, BoardRule, Grantable, StaticRule, BoardPins.OnBoard;
    GrantableNeeds(t, inst);
    NeedsOnBoard(inst);
    var n := Needs(inst);
    forall i | 0 <= i < |n|
      ensures NeedFree(t, n[i]) <==>
              && BoardRule(n[i].phys) != Reserved
              && forall s :: 0 <= s < SLOTS && s != slot ==> Compatible(BoardPins.Some(n[i]), At(decl[s], n[i].phys))
    {
      OneFree(t, decl, slot, n[i]);
    }
  }

  lemma NeedsOnBoard(inst: Inst)
    requires Accepted(inst)
    ensures forall i :: 0 <= i < |Needs(inst)| ==>
      var n := Needs(inst)[i];
      n.phys < PINS && StaticRule(n) == BoardRule(n.phys) && BoardPins.OnBoard(n.phys)
  {
    hide BoardRule, NeedOf, InputOk, OutputOk, StaticRule, InputNeeds, OutputNeeds;
    var a, b, n := InputNeeds(inst.inputs), OutputNeeds(inst.outputs), Needs(inst);
    forall i | 0 <= i < |n|
      ensures n[i].phys < PINS && StaticRule(n[i]) == BoardRule(n[i].phys) && BoardPins.OnBoard(n[i].phys)
    {
      if i < |a| {
        var j := InputNeedSource(inst.inputs, i);
        InputNeedStatic(inst.inputs[j]);
      } else {
        OutputNeedStatic(inst.outputs[i - |a|]);
      }
    }
  }

  /** A host's text is accepted if and only if its slot is 0 or 1 and not armed, it has 1 to 127
      characters, it parses, and its pins are to be had: its inputs free, its outputs free or driven with
      the same two levels, none of them on the I2C bus. */
  lemma AcceptedExactly(s: State, slot: nat, text: string)
    requires Inv(s)
    ensures SetDsl(s, slot, text).1 == ReplyOk <==>
            && slot < 2 && 1 <= |text| <= 127 && s.memory.slots[slot].state != ARMED
            && Parse(text).Parsed? && Grantable(s.table, Parse(text).inst)
  {
    hide Parse, Grantable, Inv, SetDsl, Declared, Fits, AsksReserved, Needs;
    SetDslLaw(s, slot, text);
    assert Shape(s) by {
      InvShape(s);
    }
    if slot < 2 && s.memory.slots[slot].state != ARMED && Parse(text).Parsed? {
      FreeDeclares(s, slot);
      ParseSound(text);
      NeedsAreFree(s.table, Declared(s), slot, Parse(text).inst);
    }
  }

  lemma InvShape(s: State)
    requires Inv(s)
    ensures Shape(s)
  {
  }
}
