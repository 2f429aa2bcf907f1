/** Liveness and summary edges reported to the host, one frame at most for each call, each deferred
    until the host link takes it. */
module BusEdges {
  import opened Bytes
  import opened BusTable

  datatype Frame = Down(addr: byte) | Up(addr: byte) | Flagged(addr: byte, summary: byte)

  datatype Option<T> = None | Some(value: T)

  /** What a slave has to tell, in the order it is told. */
  function Due(s: Slave): Option<Frame> {
    if s.state != s.announcedState && s.state == Dead then Some(Down(s.addr))
    else if s.state == Alive && s.announcedState == Dead then Some(Up(s.addr))
    else if s.summary != s.announcedSummary then Some(Flagged(s.addr, s.summary))
    else None
  }

  /** The shadow after what was due has been taken by the host link. */
  function Told(s: Slave): Slave {
    match Due(s)
    case Some(Flagged(_, _)) => Hushed(s).(announcedSummary := s.summary)
    case Some(_) => s.(announcedState := s.state)
    case None => Hushed(s)
  }

  /** A state change that is not reported, such as a first sign of life, only moves the shadow. */
  function Hushed(s: Slave): Slave {
    if s.state != s.announcedState then s.(announcedState := s.state) else s
  }

  function Deferred(s: Slave): Slave {
    match Due(s)
    case Some(Flagged(_, _)) => Hushed(s)
    case Some(_) => s
    case None => Hushed(s)
  }

  /** One call, from slave i on: the new roster and the frame the link took, if any. */
  function EmitFrom(roster: seq<Slave>, i: nat, accepts: bool): (r: (seq<Slave>, Option<Frame>))
    requires i <= |roster|
    ensures |r.0| == |roster|
    decreases |roster| - i
  {
    if i == |roster| then (roster, None)
    else if Due(roster[i]).None? then EmitFrom(roster[i := Told(roster[i])], i + 1, accepts)
    else if accepts then (roster[i := Told(roster[i])], Due(roster[i]))
    else (roster[i := Deferred(roster[i])], None)
  }

  function Emit(roster: seq<Slave>, accepts: bool): (r: (seq<Slave>, Option<Frame>))
    ensures |r.0| == |roster|
  {
    EmitFrom(roster, 0, accepts)
  }

  method EmitEdges(roster: array<Slave>, accepts: bool) returns (taken: Option<Frame>)
    modifies roster
    ensures (roster[..], taken) == Emit(old(roster[..]), accepts)
  {
    hide Due, Told, Hushed, Deferred;
    taken := None;
    var i := 0;
    while i < roster.Length
      invariant i <= roster.Length && taken == None
      invariant EmitFrom(roster[..], i, accepts) == Emit(old(roster[..]), accepts)
    {
      var done;
      done, taken := EmitOne(roster, i, accepts);
      if done {
        return;
      }
      i := i + 1;
    }
  }

  /** The body of the loop for one slave; `done` ends the call. */
  method EmitOne(roster: array<Slave>, i: nat, accepts: bool) returns (done: bool, taken: Option<Frame>)
    requires i < roster.Length
    modifies roster
    ensures var s := old(roster[i]);
      && done == Due(s).Some?
      && taken == (if accepts then Due(s) else None)
      && roster[..] == old(roster[..])[i := if accepts || !done then Told(s) else Deferred(s)]
  {
    done, taken := true, None;
    var s := roster[i];
    if s.state != s.announcedState {
      if s.state == Dead {
        if accepts {
          roster[i] := s.(announcedState := Dead);
          taken := Some(Down(s.addr));
        }
        return;
      } else if s.state == Alive && s.announcedState == Dead {
        if accepts {
          roster[i] := s.(announcedState := Alive);
          taken := Some(Up(s.addr));
        }
        return;
      } else {
        roster[i] := s.(announcedState := s.state);
      }
    }
    if s.summary != s.announcedSummary {
      if accepts {
        roster[i] := roster[i].(announcedSummary := s.summary);
        taken := Some(Flagged(s.addr, s.summary));
      }
      return;
    }
    done := false;
  }

  // ---- What one call tells ------------------------------------------------------------

  predicate LinkLost(s: Slave) { s.state == Dead && s.announcedState != Dead }

  predicate LinkBack(s: Slave) { s.state == Alive && s.announcedState == Dead }

  /** A frame is the truth about a slave, and news. */
  predicate Tells(s: Slave, f: Frame) {
    match f
    case Down(a) => a == s.addr && LinkLost(s)
    case Up(a) => a == s.addr && LinkBack(s)
    case Flagged(a, v) =>
      a == s.addr && v == s.summary && s.announcedSummary != s.summary && !LinkLost(s) && !LinkBack(s)
  }

  predicate NothingNew(s: Slave) { !LinkLost(s) && !LinkBack(s) && s.summary == s.announcedSummary }

  /** What the shadow of a slave is once a frame about it was taken. */
  predicate Shadowed(s: Slave, f: Frame, after: Slave) {
    && after.state == s.state && after.summary == s.summary && after.addr == s.addr
    && after.announcedState == s.state
    && after.announcedSummary == if f.Flagged? then s.summary else s.announcedSummary
  }

  lemma DueTells(s: Slave)
    ensures Due(s).None? <==> NothingNew(s)
    ensures Due(s).Some? ==> Tells(s, Due(s).value) && Shadowed(s, Due(s).value, Told(s))
  {
  }

  /** An accepted call tells the first slave's news there is, with the slave's own address and its
      present summary, and remembers what it told; it tells nothing only when there is no news. */
  lemma {:induction false} EmitTells(roster: seq<Slave>, i: nat, accepts: bool)
    requires i <= |roster|
    ensures var (r, f) := EmitFrom(roster, i, accepts);
      && (f.None? <==> !accepts || forall k :: i <= k < |roster| ==> NothingNew(roster[k]))
      && (f.Some? ==> exists j :: i <= j < |roster| && Tells(roster[j], f.value) && Shadowed(roster[j], f.value, r[j])
                        && forall k :: i <= k < j ==> NothingNew(roster[k]))
    decreases |roster| - i
  {
    hide Due, Told, Deferred, NothingNew, Tells, Shadowed;
    if i < |roster| {
      DueTells(roster[i]);
      if Due(roster[i]).None? {
        var q := roster[i := Told(roster[i])];
        assert forall k :: i < k < |roster| ==> q[k] == roster[k];
        EmitTells(q, i + 1, accepts);
        var (r, f) := EmitFrom(q, i + 1, accepts);
        if f.Some? {
          var j :| i + 1 <= j < |q| && Tells(q[j], f.value) && Shadowed(q[j], f.value, r[j])
            && forall k :: i + 1 <= k < j ==> NothingNew(q[k]);
          assert Tells(roster[j], f.value) && Shadowed(roster[j], f.value, r[j]);
          assert forall k :: i <= k < j ==> NothingNew(roster[k]);
        }
      } else if accepts {
        var (r, f) := EmitFrom(roster, i, accepts);
        assert Tells(roster[i], f.value) && Shadowed(roster[i], f.value, r[i]);
      }
    }
  }

  // ---- Runs: polls change states and summaries, calls report them ----------------------

  datatype Op = SetState(i: nat, alive: bool) | SetSummary(i: nat, summary: byte) | Call(accepts: bool)

  function Step(roster: seq<Slave>, op: Op): (r: (seq<Slave>, Option<Frame>))
    ensures |r.0| == |roster|
  {
    match op
    case SetState(i, alive) =>
      (if i < |roster| then roster[i := roster[i].(state := if alive then Alive else Dead)] else roster, None)
    case SetSummary(i, v) => (if i < |roster| then roster[i := roster[i].(summary := v)] else roster, None)
    case Call(accepts) => Emit(roster, accepts)
  }

  function Run(roster: seq<Slave>, ops: seq<Op>): (res: seq<Slave>)
    ensures |res| == |roster|
    decreases |ops|
  {
    if ops == [] then roster else Step(Run(roster, ops[..|ops| - 1]), ops[|ops| - 1]).0
  }

  /** The accepted DOWN and UP frames for an address over a run, true for DOWN. */
  function Edges(roster: seq<Slave>, ops: seq<Op>, addr: byte): seq<bool>
    decreases |ops|
  {
    if ops == [] then []
    else
      var init := ops[..|ops| - 1];
      Edges(roster, init, addr) + EdgeOf(Step(Run(roster, init), ops[|ops| - 1]).1, addr)
  }

  function EdgeOf(f: Option<Frame>, addr: byte): seq<bool> {
    match f
    case Some(Down(a)) => if a == addr then [true] else []
    case Some(Up(a)) => if a == addr then [false] else []
    case _ => []
  }

  ghost predicate Alternates(edges: seq<bool>) {
    forall k :: 0 <= k < |edges| ==> edges[k] == (k % 2 == 0)
  }

  ghost predicate DistinctSlaves(roster: seq<Slave>) {
    forall i, j :: 0 <= i < j < |roster| ==> roster[i].addr != roster[j].addr
  }

  /** A shadow that has seen a state is never ahead of a state that was never set. */
  ghost predicate Sane(s: Slave) { s.announcedState != Unknown ==> s.state != Unknown }

  /** The number of DOWN and UP frames is odd exactly when the shadow is dead. */
  ghost predicate Recorded(s: Slave, edges: seq<bool>) {
    Sane(s) && Alternates(edges) && (s.announcedState == Dead <==> |edges| % 2 == 1)
  }

  /** The effect of one call on slave j: a frame about it tells the shadow's new state. */
  lemma {:induction false} EmitEffect(roster: seq<Slave>, i: nat, accepts: bool, j: nat)
    requires i <= j < |roster| && DistinctSlaves(roster) && Sane(roster[j])
    ensures var (r, f) := EmitFrom(roster, i, accepts);
      var was, edge := roster[j].announcedState == Dead, EdgeOf(f, roster[j].addr);
      && r[j].addr == roster[j].addr && Sane(r[j])
      && (r[j].announcedState == Dead <==> if edge == [] then was else !was)
      && (edge == [] || edge == [!was])
    decreases |roster| - i
  {
    if Due(roster[i]).None? && i < j {
      EmitEffect(roster[i := Told(roster[i])], i + 1, accepts, j);
    } else if Due(roster[i]).None? {
      EmitOthers(roster[i := Told(roster[i])], i + 1, accepts, j);
    }
  }

  lemma {:induction false} EmitOthers(roster: seq<Slave>, i: nat, accepts: bool, j: nat)
    requires j < i <= |roster| && DistinctSlaves(roster)
    ensures EmitFrom(roster, i, accepts).0[j] == roster[j]
    ensures EdgeOf(EmitFrom(roster, i, accepts).1, roster[j].addr) == []
    decreases |roster| - i
  {
    if i < |roster| && Due(roster[i]).None? {
      EmitOthers(roster[i := Told(roster[i])], i + 1, accepts, j);
    }
  }

  lemma {:induction false} EmitAddrs(roster: seq<Slave>, i: nat, accepts: bool)
    requires i <= |roster|
    ensures forall k :: 0 <= k < |roster| ==> EmitFrom(roster, i, accepts).0[k].addr == roster[k].addr
    decreases |roster| - i
  {
    if i < |roster| && Due(roster[i]).None? {
      EmitAddrs(roster[i := Told(roster[i])], i + 1, accepts);
    }
  }

  lemma StepRecorded(roster: seq<Slave>, op: Op, j: nat, edges: seq<bool>)
    requires j < |roster| && DistinctSlaves(roster) && Recorded(roster[j], edges)
    ensures var (r, f) := Step(roster, op);
      DistinctSlaves(r) && r[j].addr == roster[j].addr && Recorded(r[j], edges + EdgeOf(f, roster[j].addr))
  {
    hide EmitFrom;
    match op {
      case SetState(_, _) => assert edges + [] == edges;
      case SetSummary(_, _) => assert edges + [] == edges;
      case Call(accepts) =>
        EmitEffect(roster, 0, accepts, j);
        EmitAddrs(roster, 0, accepts);
        assert edges + [] == edges;
    }
  }

  /** Over any run of polls and calls: the frames accepted for a slave alternate DOWN, UP, DOWN...,
      and its shadow is dead exactly when the last of them was DOWN. */
  lemma {:induction false} EdgesAlternate(roster: seq<Slave>, ops: seq<Op>, j: nat)
    requires j < |roster| && DistinctSlaves(roster) && Sane(roster[j]) && roster[j].announcedState != Dead
    ensures var edges := Edges(roster, ops, roster[j].addr);
      && Alternates(edges)
      && (Run(roster, ops)[j].announcedState == Dead <==> edges != [] && edges[|edges| - 1])
  {
    RunRecorded(roster, ops, j);
  }

  lemma {:induction false} RunRecorded(roster: seq<Slave>, ops: seq<Op>, j: nat)
    requires j < |roster| && DistinctSlaves(roster) && Recorded(roster[j], [])
    ensures var r := Run(roster, ops);
      DistinctSlaves(r) && r[j].addr == roster[j].addr && Recorded(r[j], Edges(roster, ops, roster[j].addr))
    decreases |ops|
  {
    hide Step, Recorded;
    if ops != [] {
      var init := ops[..|ops| - 1];
      RunRecorded(roster, init, j);
      StepRecorded(Run(roster, init), ops[|ops| - 1], j, Edges(roster, init, roster[j].addr));
    }
  }

  // ---- Summaries over runs ------------------------------------------------------------

  function FlagOf(f: Option<Frame>, addr: byte): seq<byte> {
    match f
    case Some(Flagged(a, v)) => if a == addr then [v] else []
    case _ => []
  }

  /** The summaries that were told of an address over a run. */
  function Flags(roster: seq<Slave>, ops: seq<Op>, addr: byte): seq<byte>
    decreases |ops|
  {
    if ops == [] then []
    else
      var init := ops[..|ops| - 1];
      Flags(roster, init, addr) + FlagOf(Step(Run(roster, init), ops[|ops| - 1]).1, addr)
  }

  lemma {:induction false} EmitFlag(roster: seq<Slave>, i: nat, accepts: bool, j: nat)
    requires i <= |roster| && j < |roster| && DistinctSlaves(roster)
    ensures var (r, f) := EmitFrom(roster, i, accepts);
      var flag := FlagOf(f, roster[j].addr);
      && r[j].addr == roster[j].addr
      && r[j].announcedSummary == (if flag == [] then roster[j].announcedSummary else flag[0])
      && |flag| <= 1 && (flag != [] ==> flag[0] == roster[j].summary)
    decreases |roster| - i
  {
    if i < |roster| && Due(roster[i]).None? {
      EmitFlag(roster[i := Told(roster[i])], i + 1, accepts, j);
    }
  }

  lemma StepFlag(roster: seq<Slave>, op: Op, j: nat)
    requires j < |roster| && DistinctSlaves(roster)
    ensures var (r, f) := Step(roster, op);
      var flag := FlagOf(f, roster[j].addr);
      && DistinctSlaves(r) && r[j].addr == roster[j].addr
      && r[j].announcedSummary == (if flag == [] then roster[j].announcedSummary else flag[0])
      && |flag| <= 1
  {
    hide EmitFrom;
    if op.Call? {
      EmitFlag(roster, 0, op.accepts, j);
      EmitAddrs(roster, 0, op.accepts);
    }
  }

  /** Over any run the host has been told, last, exactly the summary that the shadow remembers. */
  lemma {:induction false} SummaryTold(roster: seq<Slave>, ops: seq<Op>, j: nat)
    requires j < |roster| && DistinctSlaves(roster)
    ensures var (r, flags) := (Run(roster, ops), Flags(roster, ops, roster[j].addr));
      && DistinctSlaves(r) && r[j].addr == roster[j].addr
      && r[j].announcedSummary == if flags == [] then roster[j].announcedSummary else flags[|flags| - 1]
    decreases |ops|
  {
    hide Step, DistinctSlaves;
    if ops != [] {
      var init := ops[..|ops| - 1];
      SummaryTold(roster, init, j);
      StepFlag(Run(roster, init), ops[|ops| - 1], j);
    }
  }

  // ---- Nothing is lost and everything is told in time ----------------------------------

  /** How many shadows of a slave differ from what they shadow. */
  function Gaps(s: Slave): nat {
    (if s.state != s.announcedState then 1 else 0) + (if s.summary != s.announcedSummary then 1 else 0)
  }

  function AllGaps(roster: seq<Slave>): nat {
    if roster == [] then 0 else AllGaps(roster[..|roster| - 1]) + Gaps(roster[|roster| - 1])
  }

  lemma {:induction false} GapsUpdate(roster: seq<Slave>, i: nat, s: Slave)
    requires i < |roster|
    ensures AllGaps(roster[i := s]) + Gaps(roster[i]) == AllGaps(roster) + Gaps(s)
  {
    hide Gaps;
    var k := |roster| - 1;
    if i < k {
      GapsUpdate(roster[..k], i, s);
      assert roster[i := s][..k] == roster[..k][i := s];
    } else {
      assert roster[i := s][..k] == roster[..k];
    }
  }

  lemma {:induction false} NoGaps(roster: seq<Slave>)
    ensures AllGaps(roster) == 0 <==> forall k :: 0 <= k < |roster| ==> Gaps(roster[k]) == 0
  {
    hide Gaps;
    if roster != [] {
      NoGaps(roster[..|roster| - 1]);
    }
  }

  /** A call that the link accepts closes at least one gap while there is any; a call it turns down
      loses nothing that is due and opens no gap. */
  lemma {:induction false} EmitGaps(roster: seq<Slave>, i: nat, accepts: bool)
    requires i <= |roster| && forall k :: 0 <= k < i ==> Gaps(roster[k]) == 0
    ensures var (r, f) := EmitFrom(roster, i, accepts);
      && AllGaps(r) <= AllGaps(roster)
      && (accepts && AllGaps(roster) > 0 ==> AllGaps(r) < AllGaps(roster))
      && (!accepts ==> f.None? && forall k :: 0 <= k < |roster| ==> Due(r[k]) == Due(roster[k]))
    decreases |roster| - i
  {
    hide AllGaps;
    if i == |roster| {
      NoGaps(roster);
    } else if Due(roster[i]).None? {
      GapsUpdate(roster, i, Told(roster[i]));
      EmitGaps(roster[i := Told(roster[i])], i + 1, accepts);
    } else if accepts {
      GapsUpdate(roster, i, Told(roster[i]));
    } else {
      GapsUpdate(roster, i, Deferred(roster[i]));
    }
  }

  function Calls(roster: seq<Slave>, n: nat): (res: seq<Slave>)
    ensures |res| == |roster|
    decreases n
  {
    if n == 0 then roster else Calls(Emit(roster, true).0, n - 1)
  }

  /** With states fixed and the link accepting, as many calls as there are gaps tell everything. */
  lemma {:induction false} ToldInTime(roster: seq<Slave>, n: nat)
    requires n >= AllGaps(roster)
    ensures forall k :: 0 <= k < |roster| ==> Gaps(Calls(roster, n)[k]) == 0
    decreases n
  {
    hide Gaps, EmitFrom;
    if n == 0 {
      NoGaps(roster);
    } else {
      EmitGaps(roster, 0, true);
      ToldInTime(Emit(roster, true).0, n - 1);
    }
  }
}
