/** From a producer's call to the wire: what becomes of the bytes of one accepted send. */
module BusDelivery {
  import opened Bytes
  import opened BusTable
  import opened BusMachine
  import opened BusMachineLaws
  import opened BusDispatch
  import opened BusPool
  import opened BusRefine

  /** Neither the cycle's swap nor a rebuild of the node table. */
  predicate Quiet(s: State, t: Step) { !t.Swap? && !(t.Begin? && s.dirty) }

  /** A run in which the cycle may finish its pass, but does not swap and rebuilds no table. */
  ghost predicate QuietRun(s: State, ts: seq<Step>, end: State)
    decreases |ts|
  {
    if ts == [] then end == s
    else Shaped(s) && Enabled(s, ts[0]) && Quiet(s, ts[0]) && QuietRun(Next(s, ts[0]), ts[1..], end)
  }

  /** A quiet step decides nothing about a message of this cycle: what is being drained is older. */
  lemma QuietFate(s: State, t: Step, id: nat)
    requires Placed(s) && Shaped(s) && Enabled(s, t) && Quiet(s, t)
    requires id < |s.accepted| && s.accepted[id].epoch == s.swaps
    ensures Fates(Next(s, t).log, id) == Fates(s.log, id)
  {
    hide Fates, IndexFrom;
    if t.SendOrDrop? && s.pc.chain != [] {
      var q := s.pc.chain[0];
      assert Carries(s, q, s.nodes[s.pc.i].addr, s.swaps - 1);
      FatesOne(s.log, Next(s, t).log[|s.log|], id);
    }
  }

  lemma QuietKeeps(s: State, t: Step)
    requires Shaped(s) && Enabled(s, t) && Quiet(s, t)
    ensures s.accepted <= Next(s, t).accepted && Next(s, t).swaps == s.swaps
    ensures |Next(s, t).nodes| == |s.nodes|
    ensures forall i :: 0 <= i < |s.nodes| ==> Next(s, t).nodes[i].addr == s.nodes[i].addr
  {
    hide IndexFrom, Build, AllQueued, Discards;
  }

  lemma {:induction false} QuietRuns(s: State, ts: seq<Step>, end: State, id: nat)
    requires Sound(s) && QuietRun(s, ts, end) && id < |s.accepted| && s.accepted[id].epoch == s.swaps
    ensures Sound(end) && Runs(s, ts, end)
    ensures s.accepted <= end.accepted && end.swaps == s.swaps && Fates(end.log, id) == Fates(s.log, id)
    decreases |ts|
  {
    hide Conserved, Tracked, Placed, Homed, Next, Shaped, Enabled, Fates, Quiet;
    if ts != [] {
      StepInv(s, ts[0]);
      StepHomed(s, ts[0]);
      QuietFate(s, ts[0], id);
      QuietKeeps(s, ts[0]);
      QuietRuns(Next(s, ts[0]), ts[1..], end, id);
    }
  }

  /** What a free buffer of a sound engine is good for. */
  lemma FreeIsPool(s: State)
    requires Sound(s) && s.free != []
    ensures s.free[0] < POOL_N
  {
    hide NodesTally, Tally, Placed, Homed, Tracked;
    CountMember(s.free, s.free[0]);
    assert Owners(s, s.free[0]) > 0;
  }

  /** A whole send keeps the engine sound, and what it accepts is undecided. */
  lemma SendSound(s: State, c: Content, dest: byte)
    requires Sound(s) && Shaped(s) && (s.free != [] ==> s.free[0] < POOL_N)
    ensures var e := SendRun(s, c, dest); Sound(e) && e.swaps == s.swaps && e.log == s.log
  {
    hide Conserved, Tracked, Placed, Homed, IndexFrom;
    SoundStep(s, Grab);
    if s.free != [] {
      var k := |s.filling|;
      var a := Next(s, Grab);
      SoundStep(a, Fill(k, c));
      var b := Next(a, Fill(k, c));
      SoundStep(b, Attach(k, dest));
      var d := Next(b, Attach(k, dest));
      if IndexOf(s.nodes, dest) < 0 {
        SoundStep(d, GiveBack(|s.rejected|));
      }
    }
  }

  lemma SoundStep(s: State, t: Step)
    requires Sound(s) && Shaped(s) && Enabled(s, t)
    ensures Sound(Next(s, t)) && Shaped(Next(s, t))
  {
    hide Inv, Homed, Next, Shaped, Enabled;
    StepInv(s, t);
    StepHomed(s, t);
  }

  /** The state after an undisturbed send of a sound engine. */
  ghost function SentFrom(s: State, c: Content, dest: byte): (e: State)
    requires Sound(s)
    ensures Shaped(s) && (s.free != [] ==> s.free[0] < POOL_N) && e == SendRun(s, c, dest)
  {
    InvShaped(s);
    assert s.free != [] ==> s.free[0] < POOL_N by {
      if s.free != [] {
        FreeIsPool(s);
      }
    }
    SendRun(s, c, dest)
  }

  lemma Undecided(s: State)
    requires Tracked(s)
    ensures Fates(s.log, |s.accepted|) == 0
  {
    hide NodesTally, Tally, Fates;
    assert Whereabouts(s, |s.accepted|) == 0;
  }

  /** From the call to the wire. Take any sound engine and a send of some bytes that was accepted, then
      any steps of anyone, short of a rebuild, up to the next swap, and on to the end of that cycle's
      message pass. If the node lived at the swap, exactly these bytes, cut to 240, were put on the wire
      to it, once; if it was dead, they were dropped. */
  lemma SentArrives(s: State, payload: seq<byte>, tag: nat, dest: byte, ts: seq<Step>, swap: State,
                    us: seq<Step>, end: State)
    requires Sound(s) && s.free != [] && IndexOf(s.nodes, dest) >= 0
    requires QuietRun(SentFrom(s, Content(if |payload| <= 240 then payload else payload[..240], tag), dest), ts, swap)
    requires swap.pc.Ready? && Runs(swap, us, end) && end.pc.Sweep? && end.swaps == swap.swaps + 1
    ensures
      var id, i := |s.accepted|, IndexOf(swap.nodes, dest);
      && Fates(end.log, id) == 1 && i >= 0
      && (swap.nodes[i].dead ==> FateOf(end.log, id) == DroppedDead(id, dest))
      && (!swap.nodes[i].dead && |payload| <= 240 ==> FateOf(end.log, id) == OnWire(id, dest, Content(payload, tag)))
      && (!swap.nodes[i].dead && |payload| > 240 ==>
            FateOf(end.log, id) == OnWire(id, dest, Content(payload[..240], tag)))
  {
    var c := Content(if |payload| <= 240 then payload else payload[..240], tag);
    var e, id := SentFrom(s, c, dest), |s.accepted|;
    AttachKnown(s, dest);
    Undecided(s);
    hide Inv, Homed, Shaped, SendRun, SentFrom, QuietRun, Runs, Fates, FateOf, IndexFrom, SendStep;
    SendRefines(s, c, dest);
    SendSound(s, c, dest);
    assert e.accepted[id] == Message(dest, c, s.swaps);
    QuietRuns(e, ts, swap, id);
    DispatchedNextCycle(swap, us, end, id);
  }

  lemma AttachKnown(s: State, dest: byte)
    requires Shaped(s) && s.free != [] && IndexOf(s.nodes, dest) >= 0
    ensures SendStep(Project(s), dest).1
  {
    hide IndexFrom, PlainTable;
    PlainIndex(s.nodes, dest, 0);
  }
}
