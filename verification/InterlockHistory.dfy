/** Samples and verdicts over runs: an armed slot judges by the samples it was given since it was
    armed, whatever else happened, and its outputs follow. */
module InterlockHistory {
  import opened Dsl
  import opened InterlockEval
  import opened PinClaims
  import opened Interlocks
  import opened InterlockLaws
  import opened InterlockRuns

  // ---- Filters over ticks -------------------------------------------------------------

  predicate Sampled(raws: seq<seq<nat>>) {
    forall j :: 0 <= j < |raws| ==> |raws[j]| == MAX_INPUTS
  }

  /** A slot's memory after a list of ticks, from a fresh arm. */
  function Ticks(inst: Inst, raws: seq<seq<nat>>): (r: Runtime)
    requires Shaped(inst) && Sampled(raws)
    ensures RuntimeOk(r)
  {
    if raws == [] then Cleared() else After(inst, Ticks(inst, raws[..|raws| - 1]), raws[|raws| - 1])
  }

  /** What input i was given, as levels. */
  function Column(raws: seq<seq<nat>>, i: nat): (r: seq<nat>)
    requires i < MAX_INPUTS && Sampled(raws)
    ensures |r| == |raws| && Bits(r)
  {
    seq(|raws|, j requires 0 <= j < |raws| => raws[j][i] % 2)
  }

  lemma AfterInput(inst: Inst, rt: Runtime, raw: seq<nat>, i: nat)
    requires RuntimeOk(rt) && Shaped(inst) && |raw| == MAX_INPUTS
    requires i < |inst.inputs| && IsGpio(inst.inputs[i].mode) && inst.inputs[i].debounce >= 2
    ensures var q, d := After(inst, rt, raw), inst.inputs[i].debounce;
      && q.shift[i] == ShiftIn(rt.shift[i], raw[i] % 2, d)
      && q.debounced[i] == Settle(q.shift[i], rt.debounced[i], d)
  {
    hide ShiftIn, Settle, Verdicts;
  }

  lemma ColumnSnoc(raws: seq<seq<nat>>, i: nat)
    requires raws != [] && i < MAX_INPUTS && Sampled(raws)
    ensures Column(raws, i) == Column(raws[..|raws| - 1], i) + [raws[|raws| - 1][i] % 2]
  {
  }

  lemma FilterSnoc(xs: seq<nat>, x: nat, d: nat)
    requires x <= 1
    ensures var r := ShiftIn(FilterRun(xs, d).0, x, d);
      FilterRun(xs + [x], d) == (r, Settle(r, FilterRun(xs, d).1, d))
  {
    hide ShiftIn, Settle;
    FilterLast(xs + [x], d);
    assert (xs + [x])[..|xs|] == xs;
  }

  lemma FilterLast(ys: seq<nat>, d: nat)
    requires ys != [] && ys[|ys| - 1] <= 1
    ensures var before := FilterRun(ys[..|ys| - 1], d); var r := ShiftIn(before.0, ys[|ys| - 1], d);
      FilterRun(ys, d) == (r, Settle(r, before.1, d))
  {
    hide ShiftIn, Settle;
  }

  lemma {:induction false} FilterOverTicks(inst: Inst, raws: seq<seq<nat>>, i: nat)
    requires Shaped(inst) && Sampled(raws)
    requires i < |inst.inputs| && IsGpio(inst.inputs[i].mode) && inst.inputs[i].debounce >= 2
    ensures var r := Ticks(inst, raws);
      (r.shift[i], r.debounced[i]) == FilterRun(Column(raws, i), inst.inputs[i].debounce)
    decreases |raws|
  {
    if raws != [] {
      var d, before, raw := inst.inputs[i].debounce, raws[..|raws| - 1], raws[|raws| - 1];
      FilterOverTicks(inst, before, i);
      ColumnSnoc(raws, i);
      AfterInput(inst, Ticks(inst, before), raw, i);
      FilterSnoc(Column(before, i), raw[i] % 2, d);
      hide ShiftIn, Settle, Shaped, After, Column, FilterRun;
    }
  }

  /** Over any ticks, the filtered level of a debounced input is the one its last samples settled
      on. */
  lemma DebounceOverTicks(inst: Inst, raws: seq<seq<nat>>, i: nat)
    requires Shaped(inst) && Sampled(raws)
    requires i < |inst.inputs| && inst.inputs[i].mode in {In, InUp, InDown} && inst.inputs[i].debounce >= 2
    ensures Ticks(inst, raws).debounced[i] == Settled(Column(raws, i), inst.inputs[i].debounce)
  {
    assert i < MAX_INPUTS;
    hide ShiftIn, Settle, Shaped, After, FilterRun, Settled, Ticks;
    FilterOverTicks(inst, raws, i);
    FilterSettles(Column(raws, i), inst.inputs[i].debounce);
  }

  // ---- What the samples themselves say ------------------------------------------------

  /** The value of input i by the samples alone: the last one, or what they settle on. */
  function Reading(inst: Inst, raws: seq<seq<nat>>, i: nat): nat
    requires Sampled(raws) && raws != [] && i < |inst.inputs| <= MAX_INPUTS
  {
    var x, now := inst.inputs[i], raws[|raws| - 1][i];
    if x.mode == Adc || x.mode == Virtual then now
    else if x.debounce < 2 then now % 2
    else Settled(Column(raws, i), x.debounce)
  }

  /** The values of input i at each tick. */
  function Readings(inst: Inst, raws: seq<seq<nat>>, i: nat): (r: seq<nat>)
    requires Sampled(raws) && i < |inst.inputs| <= MAX_INPUTS
    ensures |r| == |raws|
  {
    if raws == [] then [] else Readings(inst, raws[..|raws| - 1], i) + [Reading(inst, raws, i)]
  }

  /** The verdict of watch k by the samples alone, dead band included. */
  predicate Judged(inst: Inst, raws: seq<seq<nat>>, k: nat)
    requires Sampled(raws) && Shaped(inst) && k < |inst.watches|
  {
    var w := inst.watches[k];
    Verdict(w.op, Readings(inst, raws, w.input), w.threshold, inst.inputs[w.input].hyst, false)
  }

  /** The condition of an instance: some group has all its watches passing, or there is no watch. */
  ghost predicate Condition(inst: Inst, raws: seq<seq<nat>>)
    requires Sampled(raws) && Shaped(inst)
  {
    || inst.watches == []
    || exists k :: 0 <= k < |inst.watches| && GroupHolds(inst, raws, inst.watches[k].group)
  }

  ghost predicate GroupHolds(inst: Inst, raws: seq<seq<nat>>, g: nat)
    requires Sampled(raws) && Shaped(inst)
  {
    forall i :: 0 <= i < |inst.watches| && inst.watches[i].group == g ==> Judged(inst, raws, i)
  }

  // ---- The registers compute it -------------------------------------------------------

  lemma SenseSettles(inst: Inst, raws: seq<seq<nat>>, i: nat)
    requires Shaped(inst) && Sampled(raws) && raws != [] && i < |inst.inputs|
    ensures Vals(inst, Ticks(inst, raws[..|raws| - 1]), raws[|raws| - 1])[i] == Reading(inst, raws, i)
  {
    var before, raw := raws[..|raws| - 1], raws[|raws| - 1];
    if IsGpio(inst.inputs[i].mode) && inst.inputs[i].debounce >= 2 {
      DebounceOverTicks(inst, raws, i);
    }
    hide Settled, Settle, ShiftIn, Shaped, Column, Verdicts;
  }

  lemma {:induction false} VerdictSnoc(op: Op, vs: seq<nat>, v: nat, t: nat, hyst: nat, last: bool)
    ensures Verdict(op, vs + [v], t, hyst, last) == Passes(op, v, t, hyst, Verdict(op, vs, t, hyst, last))
    decreases |vs|
  {
    hide Passes;
    if vs == [] {
      assert (vs + [v])[1..] == [];
    } else {
      assert (vs + [v])[1..] == vs[1..] + [v];
      VerdictSnoc(op, vs[1..], v, t, hyst, Passes(op, vs[0], t, hyst, last));
    }
  }

  lemma AfterWatch(inst: Inst, rt: Runtime, raw: seq<nat>, k: nat)
    requires RuntimeOk(rt) && Shaped(inst) && |raw| == MAX_INPUTS && k < |inst.watches|
    ensures After(inst, rt, raw).lastPass[k] == WatchPasses(inst, rt, Vals(inst, rt, raw), k)
  {
    assert After(inst, rt, raw).lastPass[k] == Verdicts(inst, rt, raw)[k];
  }

  /** Over any ticks each watch's verdict is the one its own samples lead to: no other watch, input
      or slot has a say in it. */
  lemma {:induction false} VerdictOverTicks(inst: Inst, raws: seq<seq<nat>>, k: nat)
    requires Shaped(inst) && Sampled(raws) && k < |inst.watches|
    ensures Ticks(inst, raws).lastPass[k] == Judged(inst, raws, k)
    decreases |raws|
  {
    var w := inst.watches[k];
    if raws != [] {
      var before, raw := raws[..|raws| - 1], raws[|raws| - 1];
      VerdictOverTicks(inst, before, k);
      AfterWatch(inst, Ticks(inst, before), raw, k);
      SenseSettles(inst, raws, w.input);
      VerdictSnoc(w.op, Readings(inst, before, w.input), Reading(inst, raws, w.input),
        w.threshold, inst.inputs[w.input].hyst, false);
      hide Verdict, Passes, Vals, After, Shaped, Reading;
    }
  }

  lemma TicksSnoc(inst: Inst, raws: seq<seq<nat>>, raw: seq<nat>)
    requires Shaped(inst) && Sampled(raws) && |raw| == MAX_INPUTS
    ensures Sampled(raws + [raw])
    ensures Ticks(inst, raws + [raw]) == After(inst, Ticks(inst, raws), raw)
  {
    hide Shaped, After;
    assert (raws + [raw])[..|raws|] == raws;
  }

  /** The vote of a slot is its condition on the samples. */
  lemma VoteIsCondition(inst: Inst, raws: seq<seq<nat>>, raw: seq<nat>)
    requires Shaped(inst) && Sampled(raws) && |raw| == MAX_INPUTS
    ensures Sampled(raws + [raw])
    ensures Vote(inst, Ticks(inst, raws), raw) <==> Condition(inst, raws + [raw])
  {
    TicksSnoc(inst, raws, raw);
    var pass := Verdicts(inst, Ticks(inst, raws), raw);
    forall k | 0 <= k < |inst.watches|
      ensures pass[k] == Judged(inst, raws + [raw], k)
    {
      VerdictOverTicks(inst, raws + [raw], k);
    }
    hide Judged, Verdicts, Ticks, After;
    forall g: nat
      ensures GroupPasses(inst.watches, pass, g) <==> GroupHolds(inst, raws + [raw], g)
    {
    }
  }

  // ---- Every run of the framework follows its samples ---------------------------------

  predicate Judging(s: State, slot: nat)
    requires Shape(s) && slot < FRAMEWORK
  {
    s.memory.slots[slot].state == ARMED && s.memory.slots[slot].id == ID_DSL
  }

  /** The samples a slot was given since it was armed, kept up by one step: an accepted arming, a
      disarming and a reset start afresh, a tick adds one. */
  ghost function Since(s: State, op: Action, slot: nat, h: seq<seq<nat>>): (r: seq<seq<nat>>)
    requires Shape(s) && ValidOp(op) && slot < FRAMEWORK && Sampled(h)
    ensures Sampled(r)
  {
    match op
    case OpSet(k, text) => if k == slot && SetDsl(s, k, text).1 == ReplyOk then [] else h
    case OpArm(k, id) => if k == slot && ArmCompiled(s, k, id).1 == ReplyOk then [] else h
    case OpDisarm(k) => if k == slot then [] else h
    case OpTick(raw) => if Judging(s, slot) then h + [raw[slot]] else h
    case OpReset => []
    case OpPower(_) => []
    case _ => h
  }

  /** What the slot remembers is what its samples since the arming lead to. */
  ghost predicate Follows(s: State, slot: nat, h: seq<seq<nat>>)
    requires Shape(s) && slot < FRAMEWORK && Sampled(h)
  {
    Judging(s, slot) ==> Shaped(s.memory.slots[slot].inst) && s.run[slot] == Ticks(s.memory.slots[slot].inst, h)
  }

  lemma AfterIgnoresTf(inst: Inst, tf: Tf, rt: Runtime, raw: seq<nat>)
    requires Shaped(inst) && RuntimeOk(rt) && |raw| == MAX_INPUTS
    ensures Shaped(inst.(tf := tf)) && After(inst.(tf := tf), rt, raw) == After(inst, rt, raw)
  {
    hide Sense, Passes;
    var it := inst.(tf := tf);
    assert Vals(it, rt, raw) == Vals(inst, rt, raw);
    assert Verdicts(it, rt, raw) == Verdicts(inst, rt, raw);
  }

  lemma {:induction false} TicksIgnoreTf(inst: Inst, tf: Tf, raws: seq<seq<nat>>)
    requires Shaped(inst) && Sampled(raws)
    ensures Shaped(inst.(tf := tf)) && Ticks(inst.(tf := tf), raws) == Ticks(inst, raws)
    decreases |raws|
  {
    if raws != [] {
      TicksIgnoreTf(inst, tf, raws[..|raws| - 1]);
      AfterIgnoresTf(inst, tf, Ticks(inst, raws[..|raws| - 1]), raws[|raws| - 1]);
    }
    hide Shaped, After;
  }

  lemma EvaluatedFollows(sl: Slot, rt: Runtime, raw: seq<nat>, h: seq<seq<nat>>)
    requires SlotShaped(sl, rt) && |raw| == MAX_INPUTS && Sampled(h) && sl.state == ARMED && sl.id == ID_DSL
    requires rt == Ticks(sl.inst, h)
    ensures Sampled(h + [raw])
    ensures var e := Evaluated(sl, rt, raw); Shaped(e.0.inst) && e.1 == Ticks(e.0.inst, h + [raw])
  {
    TicksSnoc(sl.inst, h, raw);
    TicksIgnoreTf(sl.inst, Evaluated(sl, rt, raw).0.inst.tf, h + [raw]);
    hide Shaped, After, Ticks, Vote;
  }

  lemma TickFollows(s: State, raw: seq<seq<nat>>, slot: nat, h: seq<seq<nat>>)
    requires Tickable(s) && RawOk(raw) && slot < FRAMEWORK && Sampled(h) && Follows(s, slot, h)
    ensures Follows(Tick(s, raw), slot, Since(s, OpTick(raw), slot, h))
  {
    if Judging(s, slot) {
      EvaluatedFollows(s.memory.slots[slot], s.run[slot], raw[slot], h);
    }
    hide Shaped, After, Ticks, Vote, Driven, SlotShaped;
  }

  /** A slot as freshly armed. */
  lemma FollowsCleared(s: State, slot: nat)
    requires Tickable(s) && slot < FRAMEWORK && s.run[slot] == Cleared()
    ensures Follows(s, slot, [])
  {
    hide Cleared, Shaped;
  }

  lemma FollowsSame(s: State, q: State, slot: nat, h: seq<seq<nat>>)
    requires Shape(s) && Shape(q) && slot < FRAMEWORK && Sampled(h) && Follows(s, slot, h)
    requires q.memory.slots[slot] == s.memory.slots[slot] && q.run[slot] == s.run[slot]
    ensures Follows(q, slot, h)
  {
    hide Ticks, Shaped;
  }

  lemma SetTouches(s: State, k: nat, text: string, slot: nat)
    requires Shape(s) && slot < FRAMEWORK
    ensures var (q, reply) := SetDsl(s, k, text);
      && (k == slot && reply == ReplyOk ==> q.run[slot] == Cleared())
      && (!(k == slot && reply == ReplyOk) ==>
            q.memory.slots[slot] == s.memory.slots[slot] && q.run[slot] == s.run[slot])
  {
    hide Parse, ClaimAll, Needs, Cleared;
  }

  lemma SetFollows(s: State, k: nat, text: string, slot: nat, h: seq<seq<nat>>)
    requires Shape(s) && slot < FRAMEWORK && Sampled(h) && Follows(s, slot, h)
    requires Tickable(SetDsl(s, k, text).0)
    ensures Follows(SetDsl(s, k, text).0, slot, Since(s, OpSet(k, text), slot, h))
  {
    var q := SetDsl(s, k, text).0;
    hide SetDsl, Follows, Tickable, Cleared;
    SetTouches(s, k, text, slot);
    if k == slot && SetDsl(s, k, text).1 == ReplyOk {
      FollowsCleared(q, slot);
    } else {
      FollowsSame(s, q, slot, h);
    }
  }

  lemma ArmFollows(s: State, k: nat, id: nat, slot: nat, h: seq<seq<nat>>)
    requires Shape(s) && slot < FRAMEWORK && Sampled(h) && Follows(s, slot, h)
    ensures Follows(ArmCompiled(s, k, id).0, slot, Since(s, OpArm(k, id), slot, h))
  {
  }

  lemma DisarmFollows(s: State, k: nat, slot: nat, h: seq<seq<nat>>)
    requires Shape(s) && slot < FRAMEWORK && Sampled(h) && Follows(s, slot, h)
    ensures Follows(Disarm(s, k).0, slot, Since(s, OpDisarm(k), slot, h))
  {
    hide Release;
  }

  lemma RestoreClears(s: State, slot: nat)
    requires Shape(s) && slot < FRAMEWORK && s.run == [Cleared(), Cleared()]
    ensures RestoreSlot(s, slot).run == [Cleared(), Cleared()]
  {
    hide Parse, ClaimAll, Needs;
  }

  lemma RestartClears(m: Persist, levels: seq<nat>)
    requires |m.slots| == FRAMEWORK && |levels| == PINS
    ensures Restart(m, levels).run == [Cleared(), Cleared()]
  {
    var a := AfterReset(m, levels);
    assert a.run == [Cleared(), Cleared()];
    hide RestoreSlot, AfterReset, Cleared;
    RestoreClears(a, 0);
    RestoreClears(RestoreSlot(a, 0), 1);
  }

  /** A reset leaves every surviving slot as freshly armed. */
  lemma RestartFollows(m: Persist, levels: seq<nat>, slot: nat)
    requires |m.slots| == FRAMEWORK && |levels| == PINS && slot < FRAMEWORK
    ensures Follows(Restart(m, levels), slot, [])
  {
    hide Restart, Inv, Tickable, Follows, Cleared;
    RestartClears(m, levels);
    RestartInv(m, levels);
    InvTickable(Restart(m, levels));
    FollowsCleared(Restart(m, levels), slot);
  }

  /** Every step keeps what a slot remembers in line with its samples. */
  lemma StepFollows(s: State, op: Action, slot: nat, h: seq<seq<nat>>)
    requires Inv(s) && Tickable(s) && ValidOp(op) && slot < FRAMEWORK && Sampled(h) && Follows(s, slot, h)
    ensures Inv(Step(s, op)) && Follows(Step(s, op), slot, Since(s, op, slot, h))
  {
    assert Shape(s);
    StepInv(s, op);
    hide Inv, Tickable, Follows, SetDsl, Disarm, ArmCompiled, Restart, Tick, Since;
    match op
    case OpSet(k, text) =>
      InvTickable(SetDsl(s, k, text).0);
      SetFollows(s, k, text, slot, h);
    case OpArm(k, id) => ArmFollows(s, k, id, slot, h);
    case OpDisarm(k) => DisarmFollows(s, k, slot, h);
    case OpTick(raw) => TickFollows(s, raw, slot, h);
    case OpReset => ResetFollows(s, op, s.memory, slot, h);
    case OpPower(m) => ResetFollows(s, op, m, slot, h);
    case _ => OthersFollow(s, op, slot, h);
  }

  lemma ResetFollows(s: State, op: Action, m: Persist, slot: nat, h: seq<seq<nat>>)
    requires Shape(s) && ValidOp(op) && slot < FRAMEWORK && Sampled(h) && |m.slots| == FRAMEWORK
    requires op.OpReset? || op.OpPower?
    ensures Follows(Restart(m, s.levels), slot, Since(s, op, slot, h))
  {
    RestartFollows(m, s.levels, slot);
  }

  lemma OthersFollow(s: State, op: Action, slot: nat, h: seq<seq<nat>>)
    requires Tickable(s) && ValidOp(op) && slot < FRAMEWORK && Sampled(h) && Follows(s, slot, h)
    requires op.OpOtherClaim? || op.OpOtherRelease?
    ensures Follows(Step(s, op), slot, Since(s, op, slot, h))
  {
    hide Ticks, Shaped, ClaimAll, Release, DistinctPins, SlotShaped;
  }

  /** The samples of a slot after a list of steps. */
  ghost function History(s: State, ops: seq<Action>, slot: nat, h: seq<seq<nat>>): (r: seq<seq<nat>>)
    requires Inv(s) && slot < FRAMEWORK && Sampled(h) && forall i :: 0 <= i < |ops| ==> ValidOp(ops[i])
    ensures Sampled(r)
    decreases |ops|
  {
    if ops == [] then h
    else
      InvTickable(s);
      StepInv(s, ops[0]);
      History(Step(s, ops[0]), ops[1..], slot, Since(s, ops[0], slot, h))
  }

  /** Over any run an armed slot's filters and verdicts are those of the samples it was given since
      it was armed: no other slot, no refused command, no earlier arming leaves a trace. */
  lemma {:induction false} RunFollows(s: State, ops: seq<Action>, slot: nat, h: seq<seq<nat>>)
    requires Inv(s) && slot < FRAMEWORK && Sampled(h) && forall i :: 0 <= i < |ops| ==> ValidOp(ops[i])
    requires Follows(s, slot, h)
    ensures Follows(Run(s, ops), slot, History(s, ops, slot, h))
    decreases |ops|
  {
    hide Inv, Step, Since, Follows, ValidOp;
    if ops != [] {
      InvTickable(s);
      StepFollows(s, ops[0], slot, h);
      RunFollows(Step(s, ops[0]), ops[1..], slot, Since(s, ops[0], slot, h));
    }
  }

  // ---- The outputs --------------------------------------------------------------------

  /** The life of a board: a start with any memory, then any steps. */
  ghost function Life(m: Persist, levels: seq<nat>, ops: seq<Action>): (s: State)
    requires |m.slots| == FRAMEWORK && |levels| == PINS && forall i :: 0 <= i < |ops| ==> ValidOp(ops[i])
    ensures Inv(s) && Tickable(s)
  {
    RestartInv(m, levels);
    InvTickable(Run(Restart(m, levels), ops));
    Run(Restart(m, levels), ops)
  }

  ghost function Samples(m: Persist, levels: seq<nat>, ops: seq<Action>, slot: nat): (h: seq<seq<nat>>)
    requires |m.slots| == FRAMEWORK && |levels| == PINS && forall i :: 0 <= i < |ops| ==> ValidOp(ops[i])
    requires slot < FRAMEWORK
    ensures Sampled(h)
  {
    RestartInv(m, levels);
    History(Restart(m, levels), ops, slot, [])
  }

  /** The slot is armed, drives p, and its condition does not hold on these samples. */
  ghost predicate Fails(sl: Slot, h: seq<seq<nat>>, p: nat)
    requires Sampled(h)
  {
    DrivesOutput(sl, p) && Shaped(sl.inst) && !Condition(sl.inst, h)
  }

  lemma FailsIsObjection(s: State, raw: seq<seq<nat>>, slot: nat, h: seq<seq<nat>>, p: nat)
    requires Tickable(s) && RawOk(raw) && slot < FRAMEWORK && Sampled(h) && Follows(s, slot, h)
    ensures Sampled(h + [raw[slot]])
    ensures Objects(s, raw, slot, p) <==> Fails(s.memory.slots[slot], h + [raw[slot]], p)
  {
    var sl := s.memory.slots[slot];
    if DrivesOutput(sl, p) {
      VoteIsCondition(sl.inst, h, raw[slot]);
    }
    hide Shaped, Vote, Condition, Ticks;
  }

  lemma LifeFollows(m: Persist, levels: seq<nat>, ops: seq<Action>, slot: nat)
    requires |m.slots| == FRAMEWORK && |levels| == PINS && forall i :: 0 <= i < |ops| ==> ValidOp(ops[i])
    requires slot < FRAMEWORK
    ensures Follows(Life(m, levels, ops), slot, Samples(m, levels, ops, slot))
  {
    RestartInv(m, levels);
    RestartFollows(m, levels, slot);
    hide Inv, Follows, Restart, Run, History, ValidOp;
    RunFollows(Restart(m, levels), ops, slot, []);
  }

  /** Whatever a board lived through, after a tick each output that an armed interlock declares
      carries its error level exactly when some armed owner's condition fails on the samples that
      owner was given since it was armed, and its good level otherwise. */
  lemma OutputsFollowSamples(m: Persist, levels: seq<nat>, ops: seq<Action>, raw: seq<seq<nat>>, slot: nat, i: nat)
    requires |m.slots| == FRAMEWORK && |levels| == PINS && forall i :: 0 <= i < |ops| ==> ValidOp(ops[i])
    requires RawOk(raw) && slot < FRAMEWORK
    requires var s := Life(m, levels, ops); Judging(s, slot) && i < |s.memory.slots[slot].inst.outputs|
    ensures
      var s := Life(m, levels, ops);
      var slots, o := s.memory.slots, s.memory.slots[slot].inst.outputs[i];
      var h0, h1 := Samples(m, levels, ops, 0) + [raw[0]], Samples(m, levels, ops, 1) + [raw[1]];
      && o.phys < PINS
      && Tick(s, raw).levels[o.phys] ==
         if Fails(slots[0], h0, o.phys) || Fails(slots[1], h1, o.phys) then o.errValue else o.okValue
  {
    var s := Life(m, levels, ops);
    var p := s.memory.slots[slot].inst.outputs[i].phys;
    hide Inv, Tick, Objects, Fails, Follows, Life, Samples, Tickable;
    LifeFollows(m, levels, ops, 0);
    LifeFollows(m, levels, ops, 1);
    FailsIsObjection(s, raw, 0, Samples(m, levels, ops, 0), p);
    FailsIsObjection(s, raw, 1, Samples(m, levels, ops, 1), p);
    OutputsAreVetoes(s, raw, slot, i);
  }
}
