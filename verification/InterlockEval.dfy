/** One tick of one interlock: filtering its inputs, judging its watches, combining the verdicts. */
module InterlockEval {
  import opened Bytes
  import opened Dsl

  /** What a slot remembers between ticks: a shift register and a filtered level for each input, the
      last verdict of each watch. */
  datatype Runtime = Runtime(shift: seq<nat>, debounced: seq<nat>, lastPass: seq<bool>)

  function Cleared(): Runtime {
    Runtime([0, 0, 0, 0], [0, 0, 0, 0], [false, false, false, false, false, false, false, false])
  }

  predicate RuntimeOk(r: Runtime) {
    |r.shift| == MAX_INPUTS && |r.debounced| == MAX_INPUTS && |r.lastPass| == MAX_WATCHES
  }

  predicate IsGpio(mode: PinMode) { mode == In || mode == InUp || mode == InDown }

  // ---- Debouncing ---------------------------------------------------------------------

  /** The low d bits. */
  function Cut(v: nat, d: nat): nat { v % Pow2(d) }

  function ShiftIn(reg: nat, bit: nat, depth: nat): nat { Cut(2 * reg + bit, depth) }

  function Settle(reg: nat, level: nat, depth: nat): nat {
    if reg == Pow2(depth) - 1 then 1 else if reg == 0 then 0 else level
  }

  /** The register and the filtered level after a list of samples, from a cleared slot. */
  function FilterRun(xs: seq<nat>, depth: nat): (nat, nat) {
    if xs == [] then (0, 0)
    else
      var (reg, level) := FilterRun(xs[..|xs| - 1], depth);
      var r := ShiftIn(reg, xs[|xs| - 1] % 2, depth);
      (r, Settle(r, level, depth))
  }

  predicate Bits(xs: seq<nat>) { forall i :: 0 <= i < |xs| ==> xs[i] <= 1 }

  /** The last n samples, or all when there are fewer. */
  function Last(xs: seq<nat>, n: nat): (r: seq<nat>)
    ensures |r| == if n <= |xs| then n else |xs|
  {
    if n <= |xs| then xs[|xs| - n..] else xs
  }

  predicate AllAre(xs: seq<nat>, v: nat) { forall i :: 0 <= i < |xs| ==> xs[i] == v }

  /** The level the samples settle on: 1 after depth ones in a row, 0 once nothing but zeros was seen
      for depth samples, otherwise what it was. */
  function Settled(xs: seq<nat>, depth: nat): nat {
    if xs == [] then 0
    else if |xs| >= depth && AllAre(Last(xs, depth), 1) then 1
    else if AllAre(Last(xs, depth), 0) then 0
    else Settled(xs[..|xs| - 1], depth)
  }

  /** The last d samples read as a binary number, newest in the lowest bit. */
  function Value(xs: seq<nat>, d: nat): nat
    decreases d
  {
    if d == 0 || xs == [] then 0 else xs[|xs| - 1] + 2 * Value(xs[..|xs| - 1], d - 1)
  }

  lemma DoubleMod(v: nat, b: nat, m: nat)
    requires b <= 1 && m >= 1
    ensures (2 * v + b) % (2 * m) == 2 * (v % m) + b
  {
    var q, r := v / m, v % m;
    assert v == q * m + r;
    assert 2 * v + b == q * (2 * m) + (2 * r + b);
    assert 2 * r + b < 2 * m;
    DivisionIs(2 * v + b, 2 * m, q, 2 * r + b);
  }

  lemma ValueStep(xs: seq<nat>, d: nat)
    requires xs != [] && d >= 1
    ensures Value(xs, d) == xs[|xs| - 1] + 2 * Value(xs[..|xs| - 1], d - 1)
    ensures Pow2(d) == 2 * Pow2(d - 1)
  {
  }

  lemma ShiftStep(v: nat, b: nat, d: nat)
    requires b <= 1 && d >= 1
    ensures Cut(2 * v + b, d) == 2 * Cut(v, d - 1) + b
  {
    Pow2Step(d);
    hide Pow2;
    DoubleMod(v, b, Pow2(d - 1));
  }

  lemma CutNone(v: nat, d: nat)
    requires d == 0 || v == 0
    ensures Cut(v, d) == 0
  {
    assert d == 0 ==> Pow2(d) == 1;
    hide Pow2;
    DivisionIs(v, Pow2(d), if d == 0 then v else 0, 0);
  }

  lemma Pow2Step(d: nat)
    requires d >= 1
    ensures Pow2(d) == 2 * Pow2(d - 1)
  {
  }

  lemma BitsInit(xs: seq<nat>)
    requires Bits(xs) && xs != []
    ensures Bits(xs[..|xs| - 1]) && xs[|xs| - 1] <= 1 && xs[|xs| - 1] % 2 == xs[|xs| - 1]
  {
  }

  lemma ValueNone(xs: seq<nat>, d: nat)
    requires d == 0 || xs == []
    ensures Value(xs, d) == 0
  {
  }

  lemma {:induction false} ValueMod(xs: seq<nat>, d: nat)
    requires Bits(xs)
    ensures Cut(Value(xs, d + 1), d) == Value(xs, d)
    decreases d
  {
    hide *;
    if d > 0 && xs != [] {
      BitsInit(xs);
      ValueMod(xs[..|xs| - 1], d - 1);
      ValueStep(xs, d + 1);
      ValueStep(xs, d);
      ShiftStep(Value(xs[..|xs| - 1], d), xs[|xs| - 1], d);
    } else {
      ValueNone(xs, d);
      if xs == [] {
        ValueNone(xs, d + 1);
      }
      CutNone(Value(xs, d + 1), d);
    }
  }

  lemma ShiftInDef(reg: nat, bit: nat, d: nat)
    ensures ShiftIn(reg, bit, d) == Cut(2 * reg + bit, d)
  {
    hide Cut;
  }

  lemma ValueShift(xs: seq<nat>, d: nat)
    requires Bits(xs) && xs != [] && d >= 1
    ensures ShiftIn(Value(xs[..|xs| - 1], d), xs[|xs| - 1], d) == Value(xs, d)
  {
    var ys := xs[..|xs| - 1];
    ShiftInDef(Value(ys, d), xs[|xs| - 1], d);
    hide *;
    BitsInit(xs);
    ValueMod(ys, d - 1);
    ValueStep(xs, d);
    ShiftStep(Value(ys, d), xs[|xs| - 1], d);
  }

  lemma RegisterStep(xs: seq<nat>, d: nat)
    requires Bits(xs) && xs != []
    ensures FilterRun(xs, d).0 == ShiftIn(FilterRun(xs[..|xs| - 1], d).0, xs[|xs| - 1], d)
  {
    hide ShiftIn, Settle, Bits;
    BitsInit(xs);
  }

  lemma RegisterNone(d: nat)
    ensures FilterRun([], d).0 == 0
  {
  }

  lemma {:induction false} RegisterIsValue(xs: seq<nat>, d: nat)
    requires Bits(xs) && d >= 1
    ensures FilterRun(xs, d).0 == Value(xs, d)
    decreases |xs|
  {
    hide *;
    if xs == [] {
      RegisterNone(d);
      ValueNone(xs, d);
    } else {
      BitsInit(xs);
      RegisterIsValue(xs[..|xs| - 1], d);
      RegisterStep(xs, d);
      ValueShift(xs, d);
    }
  }

  lemma LastSnoc(xs: seq<nat>, d: nat)
    requires xs != [] && d >= 1
    ensures Last(xs, d) == Last(xs[..|xs| - 1], d - 1) + [xs[|xs| - 1]]
  {
    var ys := xs[..|xs| - 1];
    assert xs == ys + [xs[|xs| - 1]];
    if d <= |xs| {
      assert xs[|xs| - d..] == ys[|xs| - d..] + [xs[|xs| - 1]];
    }
  }

  lemma AllAreSnoc(xs: seq<nat>, x: nat, v: nat)
    ensures AllAre(xs + [x], v) <==> AllAre(xs, v) && x == v
  {
    if AllAre(xs + [x], v) {
      assert (xs + [x])[|xs|] == x;
      assert forall i :: 0 <= i < |xs| ==> xs[i] == (xs + [x])[i];
    }
  }

  /** Nothing to look at: a depth of 0, or no sample yet. */
  lemma ExtremesNone(xs: seq<nat>, d: nat)
    requires d == 0 || xs == []
    ensures 0 <= Value(xs, d) < Pow2(d)
    ensures Value(xs, d) == 0 && AllAre(Last(xs, d), 0)
    ensures Value(xs, d) == Pow2(d) - 1 <==> |xs| >= d && AllAre(Last(xs, d), 1)
  {
    assert Last(xs, d) == [];
    if d > 0 {
      assert Pow2(d) == 2 * Pow2(d - 1);
    }
  }

  lemma {:induction false} ValueExtremes(xs: seq<nat>, d: nat)
    requires Bits(xs)
    ensures 0 <= Value(xs, d) < Pow2(d)
    ensures Value(xs, d) == 0 <==> AllAre(Last(xs, d), 0)
    ensures Value(xs, d) == Pow2(d) - 1 <==> |xs| >= d && AllAre(Last(xs, d), 1)
    decreases d
  {
    hide *;
    if d == 0 || xs == [] {
      ExtremesNone(xs, d);
    } else {
      var ys, x := xs[..|xs| - 1], xs[|xs| - 1];
      BitsInit(xs);
      ValueExtremes(ys, d - 1);
      ValueStep(xs, d);
      LastSnoc(xs, d);
      AllAreSnoc(Last(ys, d - 1), x, 0);
      AllAreSnoc(Last(ys, d - 1), x, 1);
    }
  }

  /** The shift-register filter computes exactly the settled level of its samples. */
  lemma {:induction false} FilterSettles(xs: seq<nat>, d: nat)
    requires Bits(xs) && d >= 2
    ensures FilterRun(xs, d).1 == Settled(xs, d)
    decreases |xs|
  {
    if xs != [] {
      FilterSettles(xs[..|xs| - 1], d);
      RegisterIsValue(xs, d);
      ValueExtremes(xs, d);
    }
  }

  lemma ZerosSettle(xs: seq<nat>, d: nat)
    requires AllAre(xs, 0) && d >= 1
    ensures Settled(xs, d) == 0
    decreases |xs|
  {
    if xs != [] {
      assert Last(xs, d)[0] == 0;
      assert AllAre(Last(xs, d), 0);
    }
  }

  /** The filtered level flips only after as many equal samples as the filter is deep. */
  lemma FlipNeedsDepth(xs: seq<nat>, x: nat, d: nat)
    requires Bits(xs + [x]) && d >= 2
    ensures var before, after := FilterRun(xs, d).1, FilterRun(xs + [x], d).1;
      before != after ==> |xs| + 1 >= d && AllAre(Last(xs + [x], d), after)
    ensures |xs| + 1 >= d && AllAre(Last(xs + [x], d), x) ==> FilterRun(xs + [x], d).1 == x
  {
    var ys := xs + [x];
    assert ys[..|ys| - 1] == xs;
    assert Bits(xs) by { assert forall i :: 0 <= i < |xs| ==> xs[i] == ys[i]; }
    FilterSettles(xs, d);
    FilterSettles(ys, d);
    var l := Last(ys, d);
    assert l[|l| - 1] == x;
    if |ys| < d && AllAre(l, 0) {
      assert forall i :: 0 <= i < |xs| ==> xs[i] == l[i];
      ZerosSettle(xs, d);
    }
  }

  // ---- Watches ------------------------------------------------------------------------

  /** The threshold a watch is held to once it passed, saturated to 16 bits. */
  function Relaxed(op: Op, t: nat, hyst: nat): nat {
    match op
    case Gt => if t > hyst then t - hyst else 0
    case Ge => if t > hyst then t - hyst else 0
    case Lt => if t + hyst > 65535 then 65535 else t + hyst
    case Le => if t + hyst > 65535 then 65535 else t + hyst
    case _ => t
  }

  predicate Compare(op: Op, v: nat, t: nat) {
    match op
    case Eq => v == t
    case Ne => v != t
    case Lt => v < t
    case Gt => v > t
    case Le => v <= t
    case Ge => v >= t
  }

  predicate Passes(op: Op, v: nat, t: nat, hyst: nat, last: bool) {
    Compare(op, v, if hyst != 0 && last then Relaxed(op, t, hyst) else t)
  }

  /** The saturated dead band of a watch. */
  predicate InBand(op: Op, v: nat, t: nat, hyst: nat) {
    match op
    case Gt => v <= t && v + hyst > t && v > 0
    case Ge => v < t && v + hyst >= t
    case Lt => v >= t && v < t + hyst && v < 65535
    case Le => v > t && v <= t + hyst
    case _ => false
  }

  /** Inside the dead band the last verdict is kept, outside it the reading is compared as written. */
  lemma BandLaw(op: Op, v: nat, t: nat, hyst: nat, last: bool)
    requires v <= 65535 && t <= 65535
    ensures InBand(op, v, t, hyst) ==> Passes(op, v, t, hyst, last) == last
    ensures !InBand(op, v, t, hyst) ==>
      (Passes(op, v, t, hyst, last) <==>
        (match op
         case Eq => v == t
         case Ne => v != t
         case Lt => v < t
         case Gt => v > t
         case Le => v <= t
         case Ge => v >= t))
  {
  }

  /** Verdicts over a list of readings. */
  function Verdict(op: Op, vs: seq<nat>, t: nat, hyst: nat, last: bool): bool {
    if vs == [] then last else Verdict(op, vs[1..], t, hyst, Passes(op, vs[0], t, hyst, last))
  }

  /** However long the reading stays in the dead band, the verdict does not flip. */
  lemma {:induction false} NoFlutter(op: Op, vs: seq<nat>, t: nat, hyst: nat, last: bool)
    requires t <= 65535 && forall i :: 0 <= i < |vs| ==> vs[i] <= 65535 && InBand(op, vs[i], t, hyst)
    ensures Verdict(op, vs, t, hyst, last) == last
    decreases |vs|
  {
    if vs != [] {
      BandLaw(op, vs[0], t, hyst, last);
      NoFlutter(op, vs[1..], t, hyst, last);
    }
  }

  /** Some reading from 0 to `top` makes a watch fail that passed before. */
  predicate CanFail(op: Op, t: nat, hyst: nat, top: nat) {
    match op
    case Gt => true
    case Ge => hyst < t
    case Lt => t + hyst <= top || top == 65535
    case Le => t + hyst < top
    case Eq => true
    case Ne => t <= top
  }

  lemma FailsOn(op: Op, t: nat, hyst: nat, top: nat)
    requires 1 <= top <= 65535 && t <= 65535
    ensures CanFail(op, t, hyst, top) <==> exists v: nat :: v <= top && !Passes(op, v, t, hyst, true)
  {
    var near: nat := if t == 0 then 1 else 0;
    if CanFail(op, t, hyst, top) {
      var v: nat := match op { case Gt => 0 case Ge => 0 case Lt => top case Le => top case Eq => near case Ne => t };
      assert v <= top && !Passes(op, v, t, hyst, true);
    }
  }

  ghost predicate Within(vs: seq<nat>, top: nat) { forall i :: 0 <= i < |vs| ==> vs[i] <= top }

  lemma {:induction false} PassesOn(op: Op, vs: seq<nat>, t: nat, hyst: nat, top: nat)
    requires 1 <= top <= 65535 && t <= 65535 && Within(vs, top) && !CanFail(op, t, hyst, top)
    ensures Verdict(op, vs, t, hyst, true)
    decreases |vs|
  {
    if vs != [] {
      FailsOn(op, t, hyst, top);
      PassesOn(op, vs[1..], t, hyst, top);
    }
  }

  /** A watch that has passed once passes for ever, whatever its readings, exactly when its dead
      band, saturated or not, leaves no reading of the range on which it could fail. */
  lemma StuckExactly(op: Op, t: nat, hyst: nat, top: nat)
    requires 1 <= top <= 65535 && t <= 65535
    ensures (forall vs: seq<nat> :: Within(vs, top) ==> Verdict(op, vs, t, hyst, true)) <==> !CanFail(op, t, hyst, top)
  {
    hide CanFail, Passes;
    FailsOn(op, t, hyst, top);
    if CanFail(op, t, hyst, top) {
      var v: nat :| v <= top && !Passes(op, v, t, hyst, true);
      assert Within([v], top) && !Verdict(op, [v], t, hyst, true);
    } else {
      forall vs: seq<nat> | Within(vs, top)
        ensures Verdict(op, vs, t, hyst, true)
      {
        PassesOn(op, vs, t, hyst, top);
      }
    }
  }

  // ---- Combining ----------------------------------------------------------------------

  predicate GroupPasses(ws: seq<Watch>, pass: seq<bool>, g: nat)
    requires |pass| >= |ws|
  {
    forall i :: 0 <= i < |ws| && ws[i].group == g ==> pass[i]
  }

  /** Some group has all its watches passing; no watches at all is no constraint. */
  ghost predicate Dnf(ws: seq<Watch>, pass: seq<bool>)
    requires |pass| >= |ws|
  {
    ws == [] || exists k :: 0 <= k < |ws| && GroupPasses(ws, pass, ws[k].group)
  }

  /** Groups are numbered below 255, so that the byte counter of the loop ends. */
  method DnfResult(ws: seq<Watch>, pass: seq<bool>) returns (r: bool)
    requires |pass| >= |ws| && forall i :: 0 <= i < |ws| ==> ws[i].group < 255
    ensures r == Dnf(ws, pass)
  {
    if |ws| == 0 {
      return true;
    }
    var maxGroup := 0;
    var i := 0;
    while i < |ws|
      invariant 0 <= i <= |ws| && maxGroup < 255
      invariant forall k :: 0 <= k < i ==> ws[k].group <= maxGroup
    {
      if ws[i].group > maxGroup {
        maxGroup := ws[i].group;
      }
      i := i + 1;
    }
    var g := 0;
    while g <= maxGroup
      invariant 0 <= g <= maxGroup + 1 < 256
      invariant forall k :: 0 <= k < |ws| && ws[k].group < g ==> !GroupPasses(ws, pass, ws[k].group)
    {
      var groupPass, groupHas := true, false;
      i := 0;
      while i < |ws|
        invariant 0 <= i <= |ws|
        invariant groupPass ==> forall k :: 0 <= k < i && ws[k].group == g ==> pass[k]
        invariant GroupPasses(ws, pass, g) ==> groupPass
        invariant groupHas ==> exists k :: 0 <= k < |ws| && ws[k].group == g
        invariant !groupHas ==> forall k :: 0 <= k < i ==> ws[k].group != g
      {
        if ws[i].group == g {
          groupHas := true;
          if !pass[i] {
            groupPass := false;
            break;
          }
        }
        i := i + 1;
      }
      if groupHas && groupPass {
        assert GroupPasses(ws, pass, g);
        return true;
      }
      g := g + 1;
    }
    r := false;
  }

  // ---- One evaluation -----------------------------------------------------------------

  /** The value of input i, and its filter afterwards, from the raw reading. */
  function Sense(x: Input, reg: nat, level: nat, raw: nat): (r: (nat, nat, nat)) {
    if !IsGpio(x.mode) then (raw, reg, level)
    else if x.debounce < 2 then (raw % 2, reg, level)
    else
      var s := ShiftIn(reg, raw % 2, x.debounce);
      var l := Settle(s, level, x.debounce);
      (l, s, l)
  }

  function SenseAt(inst: Inst, rt: Runtime, raw: seq<nat>, i: nat): (nat, nat, nat)
    requires RuntimeOk(rt) && i < |inst.inputs| <= MAX_INPUTS && |raw| == MAX_INPUTS
  {
    Sense(inst.inputs[i], rt.shift[i], rt.debounced[i], raw[i])
  }

  function Vals(inst: Inst, rt: Runtime, raw: seq<nat>): (r: seq<nat>)
    requires RuntimeOk(rt) && |inst.inputs| <= MAX_INPUTS && |raw| == MAX_INPUTS
    ensures |r| == MAX_INPUTS
  {
    seq(MAX_INPUTS, i requires 0 <= i < MAX_INPUTS =>
      if i < |inst.inputs| then SenseAt(inst, rt, raw, i).0 else 0)
  }

  function WatchPasses(inst: Inst, rt: Runtime, vals: seq<nat>, k: nat): bool
    requires RuntimeOk(rt) && |vals| == MAX_INPUTS && |inst.inputs| <= MAX_INPUTS
    requires k < |inst.watches| <= MAX_WATCHES && inst.watches[k].input < |inst.inputs|
  {
    var w := inst.watches[k];
    Passes(w.op, vals[w.input], w.threshold, inst.inputs[w.input].hyst, rt.lastPass[k])
  }

  predicate Shaped(inst: Inst) {
    && |inst.inputs| <= MAX_INPUTS && |inst.watches| <= MAX_WATCHES
    && forall k :: 0 <= k < |inst.watches| ==> inst.watches[k].input < |inst.inputs| && inst.watches[k].group < 255
  }

  /** The verdict of every watch, the absent ones false. */
  function Verdicts(inst: Inst, rt: Runtime, raw: seq<nat>): (r: seq<bool>)
    requires RuntimeOk(rt) && Shaped(inst) && |raw| == MAX_INPUTS
    ensures |r| == MAX_WATCHES
  {
    seq(MAX_WATCHES, k requires 0 <= k < MAX_WATCHES =>
      k < |inst.watches| && WatchPasses(inst, rt, Vals(inst, rt, raw), k))
  }

  /** The slot's memory after the evaluation. */
  function After(inst: Inst, rt: Runtime, raw: seq<nat>): (r: Runtime)
    requires RuntimeOk(rt) && Shaped(inst) && |raw| == MAX_INPUTS
    ensures RuntimeOk(r)
  {
    Runtime(
      seq(MAX_INPUTS, i requires 0 <= i < MAX_INPUTS =>
        if i < |inst.inputs| then SenseAt(inst, rt, raw, i).1 else rt.shift[i]),
      seq(MAX_INPUTS, i requires 0 <= i < MAX_INPUTS =>
        if i < |inst.inputs| then SenseAt(inst, rt, raw, i).2 else rt.debounced[i]),
      seq(MAX_WATCHES, k requires 0 <= k < MAX_WATCHES =>
        if k < |inst.watches| then Verdicts(inst, rt, raw)[k] else rt.lastPass[k]))
  }

  /** The vote of a slot: whether its condition holds. */
  ghost predicate Vote(inst: Inst, rt: Runtime, raw: seq<nat>)
    requires RuntimeOk(rt) && Shaped(inst) && |raw| == MAX_INPUTS
  {
    Dnf(inst.watches, Verdicts(inst, rt, raw))
  }

  method EvalSlot(inst: Inst, before: Runtime, raw: seq<nat>) returns (tf: Tf, rt: Runtime, vals: seq<nat>)
    requires RuntimeOk(before) && Shaped(inst) && |raw| == MAX_INPUTS
    ensures rt == After(inst, before, raw)
    ensures vals == Vals(inst, before, raw)
    ensures tf == if Vote(inst, before, raw) then Pass else Veto
  {
    hide Dnf, ShiftIn, Settle, Relaxed, Compare;
    vals := [0, 0, 0, 0];
    rt := before;
    var i := 0;
    while i < |inst.inputs|
      invariant 0 <= i <= |inst.inputs| && RuntimeOk(rt) && rt.lastPass == before.lastPass && |vals| == MAX_INPUTS
      invariant forall k :: 0 <= k < i ==> (vals[k], rt.shift[k], rt.debounced[k]) == SenseAt(inst, before, raw, k)
      invariant forall k :: i <= k < MAX_INPUTS ==>
        vals[k] == 0 && rt.shift[k] == before.shift[k] && rt.debounced[k] == before.debounced[k]
    {
      var x := inst.inputs[i];
      var v := raw[i];
      if IsGpio(x.mode) {
        v := raw[i] % 2;
        if x.debounce >= 2 {
          rt := rt.(shift := rt.shift[i := ShiftIn(rt.shift[i], v, x.debounce)]);
          if rt.shift[i] == Pow2(x.debounce) - 1 {
            rt := rt.(debounced := rt.debounced[i := 1]);
          } else if rt.shift[i] == 0 {
            rt := rt.(debounced := rt.debounced[i := 0]);
          }
          v := rt.debounced[i];
        }
      }
      assert (v, rt.shift[i], rt.debounced[i]) == SenseAt(inst, before, raw, i) by {
        SettleCases(rt.shift[i], before.debounced[i], x.debounce);
      }
      vals := vals[i := v];
      i := i + 1;
    }
    assert vals == Vals(inst, before, raw);
    var pass: seq<bool>;
    pass, rt := JudgeWatches(inst, rt, vals);
    assert forall k :: 0 <= k < |inst.watches| ==> pass[k] == Verdicts(inst, before, raw)[k];
    assert pass == Verdicts(inst, before, raw);
    assert rt == After(inst, before, raw);
    var ok := DnfResult(inst.watches, pass);
    tf := if ok then Pass else Veto;
  }

  lemma SettleCases(reg: nat, level: nat, depth: nat)
    ensures Settle(reg, level, depth) == if reg == Pow2(depth) - 1 then 1 else if reg == 0 then 0 else level
  {
  }

  method JudgeWatches(inst: Inst, before: Runtime, vals: seq<nat>) returns (pass: seq<bool>, rt: Runtime)
    requires RuntimeOk(before) && Shaped(inst) && |vals| == MAX_INPUTS
    ensures |pass| == MAX_WATCHES
    ensures forall k :: 0 <= k < MAX_WATCHES ==> pass[k] == (k < |inst.watches| && WatchPasses(inst, before, vals, k))
    ensures RuntimeOk(rt) && rt.shift == before.shift && rt.debounced == before.debounced
    ensures forall k :: 0 <= k < MAX_WATCHES ==>
      rt.lastPass[k] == if k < |inst.watches| then pass[k] else before.lastPass[k]
  {
    pass := [false, false, false, false, false, false, false, false];
    rt := before;
    var i := 0;
    while i < |inst.watches|
      invariant 0 <= i <= |inst.watches| && |pass| == MAX_WATCHES
      invariant RuntimeOk(rt) && rt.shift == before.shift && rt.debounced == before.debounced
      invariant forall k :: 0 <= k < i ==> pass[k] == rt.lastPass[k] == WatchPasses(inst, before, vals, k)
      invariant forall k :: i <= k < MAX_WATCHES ==> !pass[k] && rt.lastPass[k] == before.lastPass[k]
    {
      var w := inst.watches[i];
      var v, t, hyst := vals[w.input], w.threshold, inst.inputs[w.input].hyst;
      var teff := t;
      if hyst != 0 && rt.lastPass[i] {
        match w.op {
          case Gt => teff := if t > hyst then t - hyst else 0;
          case Ge => teff := if t > hyst then t - hyst else 0;
          case Lt => teff := if t + hyst > 65535 then 65535 else t + hyst;
          case Le => teff := if t + hyst > 65535 then 65535 else t + hyst;
          case _ =>
        }
      }
      var p := false;
      match w.op {
        case Eq => p := v == t;
        case Ne => p := v != t;
        case Lt => p := v < teff;
        case Gt => p := v > teff;
        case Le => p := v <= teff;
        case Ge => p := v >= teff;
      }
      assert p == WatchPasses(inst, before, vals, i);
      rt := rt.(lastPass := rt.lastPass[i := p]);
      pass := pass[i := p];
      i := i + 1;
    }
  }
}
