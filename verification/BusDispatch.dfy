/** Exactly-once dispatch: what one cycle of the bus engine does with every message that was
    accepted before its swap, from any state that a run can reach. */
module BusDispatch {
  import opened Bytes
  import opened BusTable
  import opened BusMachine
  import opened BusMachineLaws

  // ---- Messages wait at the first node of their address -------------------------------

  lemma {:induction false} IndexSame(a: seq<Node<Queued>>, b: seq<Node<Queued>>, addr: byte, i: nat)
    requires |a| == |b| && i <= |a|
    requires forall k :: 0 <= k < |a| ==> a[k].addr == b[k].addr
    ensures IndexFrom(a, addr, i) == IndexFrom(b, addr, i)
    decreases |a| - i
  {
    if i < |a| {
      IndexSame(a, b, addr, i + 1);
    }
  }

  /** Node i is the one that a message to its address is attached to. */
  ghost predicate First(nodes: seq<Node<Queued>>, i: nat)
    requires i < |nodes|
  {
    IndexOf(nodes, nodes[i].addr) == i
  }

  ghost predicate HomedAt(nodes: seq<Node<Queued>>, i: nat)
    requires i < |nodes|
  {
    (nodes[i].list0 == [] && nodes[i].list1 == []) || First(nodes, i)
  }

  ghost predicate Homed(s: State) {
    && (forall i :: 0 <= i < |s.nodes| ==> HomedAt(s.nodes, i))
    && (s.pc.Drain? || s.pc.Release? ==> s.pc.i < |s.nodes| && (s.pc.chain == [] || First(s.nodes, s.pc.i)))
  }

  /** Nodes keep their addresses, and only first nodes get a list they did not have. */
  lemma HomedStays(s: State, s': State)
    requires Homed(s) && |s.nodes| == |s'.nodes|
    requires forall i :: 0 <= i < |s.nodes| ==> s.nodes[i].addr == s'.nodes[i].addr
    requires forall i :: 0 <= i < |s.nodes| ==>
      HomedAt(s'.nodes, i) || (s'.nodes[i].list0 == s.nodes[i].list0 && s'.nodes[i].list1 == s.nodes[i].list1)
    requires s'.pc.Drain? || s'.pc.Release? ==>
      s'.pc.i < |s.nodes| && (s'.pc.chain == [] || First(s.nodes, s'.pc.i))
    ensures Homed(s')
  {
    hide IndexFrom;
    forall i | 0 <= i < |s.nodes|
      ensures First(s'.nodes, i) <==> First(s.nodes, i)
    {
      IndexSame(s.nodes, s'.nodes, s.nodes[i].addr, 0);
    }
    forall i | 0 <= i < |s.nodes|
      ensures HomedAt(s'.nodes, i)
    {
      assert HomedAt(s.nodes, i);
    }
  }

  lemma AttachHomed(s: State, k: nat, dest: byte)
    requires Shaped(s) && Homed(s) && k < |s.filling|
    ensures Homed(Attached(s, k, dest))
  {
    hide IndexFrom;
    var s', i := Attached(s, k, dest), IndexOf(s.nodes, dest);
    if i >= 0 {
      IndexSame(s.nodes, s'.nodes, dest, 0);
      assert First(s'.nodes, i);
    }
    HomedStays(s, s');
  }

  lemma TakeHomed(s: State)
    requires Homed(s) && s.pc.Take?
    ensures Homed(Taken(s, s.pc.i))
  {
    hide IndexFrom;
    var s', i := Taken(s, s.pc.i), s.pc.i;
    if i < |s.nodes| {
      assert HomedAt(s.nodes, i);
      IndexSame(s.nodes, s'.nodes, s.nodes[i].addr, 0);
    }
    HomedStays(s, s');
  }

  lemma BeginHomed(s: State)
    requires Homed(s) && s.pc.Start?
    ensures Homed(Begun(s))
  {
    hide IndexFrom, Build, AllQueued, Discards;
    if s.dirty {
      BuildFresh<Queued>(s.roster);
    }
  }

  lemma StepHomed(s: State, t: Step)
    requires Shaped(s) && Homed(s) && Enabled(s, t)
    ensures Homed(Next(s, t))
  {
    hide IndexFrom, HomedAt, First, Build, AllQueued, Discards;
    match t {
      case Grab => HomedStays(s, Next(s, t));
      case Fill(_, _) => HomedStays(s, Next(s, t));
      case Attach(k, dest) => AttachHomed(s, k, dest);
      case GiveBack(_) => HomedStays(s, Next(s, t));
      case ChangeRoster(_, _) => HomedStays(s, Next(s, t));
      case Begin => BeginHomed(s);
      case RecoverOrphan => HomedStays(s, Next(s, t));
      case Swap => HomedStays(s, Next(s, t));
      case TakeHead => TakeHomed(s);
      case SendOrDrop => HomedStays(s, Next(s, t));
      case Recover => HomedStays(s, Next(s, t));
      case Polls(_) => HomedStays(s, Next(s, t));
    }
  }

  // ---- Runs ---------------------------------------------------------------------------

  /** A run of the engine: each step taken must be enabled where it is taken. */
  ghost predicate Runs(s: State, ts: seq<Step>, end: State)
    decreases |ts|
  {
    if ts == [] then end == s
    else Shaped(s) && Enabled(s, ts[0]) && Runs(Next(s, ts[0]), ts[1..], end)
  }

  ghost predicate Sound(s: State) {
    Inv(s) && Homed(s)
  }

  lemma {:induction false} RunSound(s: State, ts: seq<Step>, end: State)
    requires Sound(s) && Runs(s, ts, end)
    ensures Sound(end)
    decreases |ts|
  {
    hide Inv, Homed, Next, Shaped, Enabled;
    if ts != [] {
      StepInv(s, ts[0]);
      StepHomed(s, ts[0]);
      RunSound(Next(s, ts[0]), ts[1..], end);
    }
  }

  function Carved(k: nat): seq<nat> {
    if k == 0 then [] else [k - 1] + Carved(k - 1)
  }

  lemma {:induction false} CarvedCount(k: nat, x: nat)
    ensures |Carved(k)| == k && Count(Carved(k), x) == if x < k then 1 else 0
  {
    if k > 0 {
      CarvedCount(k - 1, x);
      CountConcat([k - 1], Carved(k - 1), x);
      CountOne(k - 1, x);
    }
  }

  /** The pool carved into its free list and the node table built from the roster, nothing sent. */
  function Initial(roster: seq<Slave>, contents: seq<Content>): State {
    State(Carved(POOL_N), POOL_N, contents, [], [], Build(roster), false, roster, false, Start, 0, [], [])
  }

  lemma InitialInv(roster: seq<Slave>, contents: seq<Content>)
    requires |contents| == POOL_N
    ensures Inv(Initial(roster, contents)) && Shaped(Initial(roster, contents))
  {
    hide Carved, Build, NodesTally, Tally, Count;
    var s := Initial(roster, contents);
    BuildFresh<Queued>(roster);
    forall x: nat
      ensures Owners(s, x) == if x < POOL_N then 1 else 0
      ensures Whereabouts(s, x) == 0
    {
      CarvedCount(POOL_N, x);
      CountNone(x);
      TallyNone(BufOf, x);
      TallyNone(IdOf, x);
      TallyEmpty(BufOf, s.nodes, x);
      TallyEmpty(IdOf, s.nodes, x);
    }
    CarvedCount(POOL_N, 0);
  }

  lemma CountNone(x: nat)
    ensures Count([], x) == 0
  {
  }

  /** Every run from a freshly started engine, with any roster and any interleaving, stays sound, with
      each of its 24 buffers in one place. */
  lemma ReachableSound(roster: seq<Slave>, contents: seq<Content>, ts: seq<Step>, end: State)
    requires |contents| == POOL_N && Runs(Initial(roster, contents), ts, end)
    ensures Sound(end) && Shaped(end) && forall x: nat :: Owners(end, x) == if x < 24 then 1 else 0
  {
    hide Inv, Runs, Build, Carved, IndexFrom;
    InitialInv(roster, contents);
    BuildFresh<Queued>(roster);
    RunSound(Initial(roster, contents), ts, end);
    InvShaped(end);
    OwnersOnce(end);
  }

  lemma OwnersOnce(s: State)
    requires Inv(s)
    ensures forall x: nat :: Owners(s, x) == if x < POOL_N then 1 else 0
  {
    hide Owners, Tracked, Placed;
  }

  // ---- Roster changes -----------------------------------------------------------------

  /** Steps that neither change the roster nor begin a cycle. */
  predicate Meanwhile(t: Step) { !t.ChangeRoster? && !t.Begin? }

  lemma {:induction false} FlagKept(s: State, ts: seq<Step>, end: State)
    requires Runs(s, ts, end) && forall i :: 0 <= i < |ts| ==> Meanwhile(ts[i])
    ensures end.roster == s.roster && end.dirty == s.dirty
    decreases |ts|
  {
    if ts != [] {
      FlagStays(s, ts[0]);
      FlagKept(Next(s, ts[0]), ts[1..], end);
    }
  }

  lemma FlagStays(s: State, t: Step)
    requires Shaped(s) && Enabled(s, t) && Meanwhile(t)
    ensures Next(s, t).roster == s.roster && Next(s, t).dirty == s.dirty
  {
    hide IndexFrom;
  }

  /** A roster change takes effect where the next cycle begins: the node table is built from it if the
      change, or one still pending, raised the flag, and is left as it was otherwise. */
  lemma RosterTaken(s: State, roster: seq<Slave>, flag: bool, ts: seq<Step>, end: State)
    requires Shaped(s) && |roster| <= 16
    requires Runs(Next(s, ChangeRoster(roster, flag)), ts, end) && forall i :: 0 <= i < |ts| ==> Meanwhile(ts[i])
    requires Shaped(end) && end.pc.Start?
    ensures Next(end, Begin).nodes == if s.dirty || flag then Build(roster) else end.nodes
    ensures Next(end, Begin).pc.Ready? <==> !s.dirty && !flag
    ensures !Next(end, Begin).dirty
  {
    hide Build, AllQueued, Discards, Runs, Shaped;
    FlagKept(Next(s, ChangeRoster(roster, flag)), ts, end);
  }

  // ---- One cycle ----------------------------------------------------------------------

  /** The last thing that happened to message x. */
  function FateOf(log: seq<Event>, x: nat): Event
    requires Fates(log, x) > 0
  {
    if log[|log| - 1].id == x then log[|log| - 1] else FateOf(log[..|log| - 1], x)
  }

  ghost predicate Frozen(a: seq<Node<Queued>>, b: seq<Node<Queued>>) {
    |a| == |b| && forall i :: 0 <= i < |a| ==> a[i].addr == b[i].addr && a[i].dead == b[i].dead
  }

  /** What may happen to a message in a cycle that began with these nodes: it goes on the wire if
      its node lives, and is dropped if its node is dead. */
  ghost predicate Due(nodes: seq<Node<Queued>>, e: Event) {
    match e
    case OnWire(_, addr, _) => var i := IndexOf(nodes, addr); i >= 0 && !nodes[i].dead
    case DroppedDead(_, addr) => var i := IndexOf(nodes, addr); i >= 0 && nodes[i].dead
    case Discarded(_) => false
  }

  ghost predicate AllDue(nodes: seq<Node<Queued>>, log: seq<Event>, from: nat) {
    forall k :: from <= k < |log| ==> Due(nodes, log[k])
  }

  /** From the swap of a cycle to the end of its message pass no node dies, revives or moves, and
      what happens to messages is what is due by the nodes as they were. */
  ghost predicate SinceSwap(start: State, s: State) {
    && start.log <= s.log && start.accepted <= s.accepted && s.swaps >= start.swaps
    && (s.swaps == start.swaps ==> s.pc.Ready? && s.log == start.log && Frozen(start.nodes, s.nodes))
    && (s.swaps == start.swaps + 1 && (InPass(s) || s.pc.Sweep?) ==>
          Frozen(start.nodes, s.nodes) && AllDue(start.nodes, s.log, |start.log|))
  }

  lemma SentDue(start: State, s: State)
    requires Shaped(s) && s.pc.Drain? && s.pc.chain != [] && Homed(s) && Frozen(start.nodes, s.nodes)
    ensures var s' := Sent(s, s.pc.i, s.pc.chain);
      |s'.log| == |s.log| + 1 && s'.log[..|s.log|] == s.log && Due(start.nodes, s'.log[|s.log|])
  {
    IndexSame(start.nodes, s.nodes, s.nodes[s.pc.i].addr, 0);
  }

  lemma SendSinceSwap(start: State, s: State)
    requires Shaped(s) && s.pc.Drain? && Homed(s) && SinceSwap(start, s)
    ensures SinceSwap(start, Sent(s, s.pc.i, s.pc.chain))
  {
    if s.pc.chain != [] && s.swaps == start.swaps + 1 {
      SentDue(start, s);
      hide Due, IndexFrom, Homed;
    }
  }

  /** Steps that log nothing, move no node, and do not enter a pass. */
  lemma QuietSinceSwap(start: State, s: State, s': State)
    requires SinceSwap(start, s)
    requires s'.log == s.log && s.accepted <= s'.accepted && s'.swaps == s.swaps && Frozen(s.nodes, s'.nodes)
    requires InPass(s') || s'.pc.Sweep? ==> InPass(s) || s.pc.Sweep?
    requires s.pc.Ready? ==> s'.pc.Ready?
    ensures SinceSwap(start, s')
  {
    hide Due;
  }

  lemma AttachFrozen(s: State, k: nat, dest: byte)
    requires Shaped(s) && k < |s.filling|
    ensures Frozen(s.nodes, Attached(s, k, dest).nodes) && s.accepted <= Attached(s, k, dest).accepted
    ensures var q := Attached(s, k, dest); q.log == s.log && q.pc == s.pc && q.swaps == s.swaps
  {
    hide IndexFrom;
  }

  lemma TakeFrozen(s: State)
    requires s.pc.Take?
    ensures var s' := Taken(s, s.pc.i);
      && Frozen(s.nodes, s'.nodes) && s'.accepted == s.accepted && s'.log == s.log && s'.swaps == s.swaps
  {
  }

  lemma OtherSinceSwap(start: State, s: State, t: Step)
    requires Shaped(s) && Enabled(s, t) && SinceSwap(start, s) && (t.Begin? || t.Swap? || t.Polls?)
    ensures SinceSwap(start, Next(s, t))
  {
    hide Build, AllQueued, Discards, Due;
  }

  lemma SinceSwapStep(start: State, s: State, t: Step)
    requires Shaped(s) && Enabled(s, t) && Homed(s) && SinceSwap(start, s)
    ensures SinceSwap(start, Next(s, t))
  {
    hide SinceSwap, Homed, Attached, Sent, Begun, Polled;
    match t {
      case SendOrDrop => SendSinceSwap(start, s);
      case Attach(k, dest) =>
        AttachFrozen(s, k, dest);
        QuietSinceSwap(start, s, Next(s, t));
      case TakeHead =>
        TakeFrozen(s);
        QuietSinceSwap(start, s, Next(s, t));
      case Begin => OtherSinceSwap(start, s, t);
      case Swap => OtherSinceSwap(start, s, t);
      case Polls(_) => OtherSinceSwap(start, s, t);
      case _ => QuietSinceSwap(start, s, Next(s, t));
    }
  }

  lemma {:induction false} SinceSwapRun(start: State, s: State, ts: seq<Step>, end: State)
    requires Sound(s) && SinceSwap(start, s) && Runs(s, ts, end)
    ensures Sound(end) && SinceSwap(start, end)
    decreases |ts|
  {
    hide Inv, Homed, SinceSwap, Next, Shaped, Enabled;
    if ts != [] {
      StepInv(s, ts[0]);
      StepHomed(s, ts[0]);
      SinceSwapStep(start, s, ts[0]);
      SinceSwapRun(start, Next(s, ts[0]), ts[1..], end);
    }
  }

  lemma {:induction false} FateOfLaw(log: seq<Event>, x: nat, n: nat)
    requires Fates(log, x) > 0 && n <= |log| && Fates(log[..n], x) == 0
    ensures exists k :: n <= k < |log| && log[k] == FateOf(log, x) && log[k].id == x
    decreases |log|
  {
    assert log[..|log|] == log;
    if n < |log| && log[|log| - 1].id != x {
      assert log[..|log| - 1][..n] == log[..n];
      FateOfLaw(log[..|log| - 1], x, n);
    }
  }

  /** Dead nodes get no data and live ones lose none: whatever the message pass of a cycle logs,
      it logs for a known node, as sent if and only if that node lived at the swap. */
  lemma DeadGetNoData(s: State, ts: seq<Step>, end: State, k: nat)
    requires Sound(s) && s.pc.Ready? && Runs(s, ts, end)
    requires (InPass(end) || end.pc.Sweep?) && end.swaps == s.swaps + 1
    requires |s.log| <= k < |end.log|
    ensures !end.log[k].Discarded?
    ensures var i := IndexOf(s.nodes, end.log[k].addr); i >= 0 && (end.log[k].OnWire? <==> !s.nodes[i].dead)
  {
    hide Inv, Homed, Runs, IndexFrom;
    SinceSwapRun(s, s, ts, end);
    assert Due(s.nodes, end.log[k]);
  }

  /** Exactly-once dispatch. Take any reachable state about to swap and any interleaving up to the
      end of that cycle's message pass. Each message accepted and undecided before the swap has one
      fate: it was put on the wire, to its own address with its own contents, if its node lived at
      the swap, and dropped if its node was dead. None is discarded, repeated or left for later. */
  lemma DispatchedNextCycle(s: State, ts: seq<Step>, end: State, id: nat)
    requires Sound(s) && s.pc.Ready? && Runs(s, ts, end)
    requires end.pc.Sweep? && end.swaps == s.swaps + 1
    requires id < |s.accepted| && Fates(s.log, id) == 0
    ensures Fates(end.log, id) == 1
    ensures var m := s.accepted[id]; var i := IndexOf(s.nodes, m.dest);
      i >= 0 && FateOf(end.log, id) ==
        if s.nodes[i].dead then DroppedDead(id, m.dest) else OnWire(id, m.dest, m.content)
  {
    hide Fates, FateOf, Runs, Homed, IndexFrom;
    SinceSwapRun(s, s, ts, end);
    EpochBound(s, id);
    NothingLeftOver(end, id);
    assert end.log[..|s.log|] == s.log;
    FateOfLaw(end.log, id, |s.log|);
    var k :| |s.log| <= k < |end.log| && end.log[k] == FateOf(end.log, id) && end.log[k].id == id;
    assert FateOk(end, end.log[k]) && Due(s.nodes, end.log[k]);
  }

  // ---- The pass ends ------------------------------------------------------------------

  /** How many steps of the bus thread the nodes from i on still cost. */
  function Ahead(nodes: seq<Node<Queued>>, active: bool, i: nat): (r: nat)
    decreases |nodes| - i
  {
    if i >= |nodes| then 0 else 2 * |nodes[i].List(active)| + 2 + Ahead(nodes, active, i + 1)
  }

  /** How many steps of the bus thread are left in the message pass. */
  function Left(s: State): nat {
    match s.pc
    case Take(i) => Ahead(s.nodes, s.active, i) + 1
    case Drain(i, chain) => 2 * |chain| + 2 + Ahead(s.nodes, s.active, i + 1)
    case Release(i, _, chain) => 2 * |chain| + 3 + Ahead(s.nodes, s.active, i + 1)
    case _ => 0
  }

  /** Every step but those of producers and roster changes. */
  predicate ByBusThread(t: Step) { !(t.Grab? || t.Fill? || t.Attach? || t.GiveBack? || t.ChangeRoster?) }

  function BusSteps(ts: seq<Step>): nat
    decreases |ts|
  {
    if ts == [] then 0 else (if ByBusThread(ts[0]) then 1 else 0) + BusSteps(ts[1..])
  }

  lemma {:induction false} AheadSame(a: seq<Node<Queued>>, b: seq<Node<Queued>>, active: bool, i: nat)
    requires |a| == |b| && forall k :: i <= k < |a| ==> a[k].List(active) == b[k].List(active)
    ensures Ahead(a, active, i) == Ahead(b, active, i)
    decreases |a| - i
  {
    if i < |a| {
      AheadSame(a, b, active, i + 1);
    }
  }

  /** Attaching fills the lists that are not being drained. */
  lemma AttachAhead(s: State, k: nat, dest: byte)
    requires Shaped(s) && k < |s.filling|
    ensures Left(Attached(s, k, dest)) == Left(s)
  {
    hide IndexFrom, Ahead;
    var s' := Attached(s, k, dest);
    var from: nat := match s.pc case Take(i) => i case Drain(i, _) => i + 1 case Release(i, _, _) => i + 1 case _ => 0;
    AheadSame(s.nodes, s'.nodes, s.active, from);
  }

  lemma TakeAhead(s: State)
    requires s.pc.Take?
    ensures Left(Taken(s, s.pc.i)) == Left(s) - 1
  {
    var s', i := Taken(s, s.pc.i), s.pc.i;
    if i < |s.nodes| {
      AheadSame(s.nodes, s'.nodes, s.active, i + 1);
    }
  }

  /** In the message pass each step of the bus thread is one fewer to go, and no other step adds any. */
  lemma PassStepLeft(s: State, t: Step)
    requires Shaped(s) && Enabled(s, t) && (InPass(s) || s.pc.Sweep?)
    requires ByBusThread(t) ==> Left(s) > 0
    ensures Left(Next(s, t)) == Left(s) - if ByBusThread(t) then 1 else 0
    ensures (InPass(Next(s, t)) || Next(s, t).pc.Sweep?) && Next(s, t).swaps == s.swaps
  {
    hide Ahead, Attached, Taken;
    match t {
      case Attach(k, dest) =>
        AttachAhead(s, k, dest);
        AttachFrozen(s, k, dest);
      case TakeHead =>
        TakeAhead(s);
        TakenPc(s);
      case _ =>
    }
  }

  lemma TakenPc(s: State)
    requires s.pc.Take?
    ensures var q := Taken(s, s.pc.i); (InPass(q) || q.pc.Sweep?) && q.swaps == s.swaps
  {
  }

  /** Nothing that producers do can prolong the message pass. */
  lemma {:induction false} PassEnds(s: State, ts: seq<Step>, end: State)
    requires Shaped(s) && Runs(s, ts, end) && (InPass(s) || s.pc.Sweep?) && BusSteps(ts) <= Left(s)
    ensures Left(end) == Left(s) - BusSteps(ts) && end.swaps == s.swaps
    ensures (InPass(end) || end.pc.Sweep?) && (Left(end) == 0 <==> end.pc.Sweep?)
    decreases |ts|
  {
    hide Ahead, Next, Enabled, Shaped, ByBusThread;
    if ts != [] {
      PassStepLeft(s, ts[0]);
      if ts[1..] == [] {
        assert Runs(Next(s, ts[0]), [], end);
        assert BusSteps([]) == 0;
      } else {
        PassEnds(Next(s, ts[0]), ts[1..], end);
      }
    }
  }

  lemma AfterSwap(s: State, ts: seq<Step>, end: State)
    requires Shaped(s) && s.pc.Ready? && Runs(s, [Swap] + ts, end)
    ensures Runs(Next(s, Swap), ts, end) && Shaped(Next(s, Swap))
    ensures Next(s, Swap).pc == Take(0) && Next(s, Swap).swaps == s.swaps + 1
  {
    assert ([Swap] + ts)[1..] == ts;
  }

  /** So dispatch is in time: as many steps of the bus thread after the swap as are then left, with
      any others in between, bring the pass to its end, and with it the one fate of each message. */
  lemma DispatchedInTime(s: State, ts: seq<Step>, end: State, id: nat)
    requires Sound(s) && Shaped(s) && s.pc.Ready? && Runs(s, [Swap] + ts, end)
    requires BusSteps(ts) == Left(Next(s, Swap))
    requires id < |s.accepted| && Fates(s.log, id) == 0
    ensures end.pc.Sweep? && Fates(end.log, id) == 1
    ensures var m := s.accepted[id]; var i := IndexOf(s.nodes, m.dest);
      i >= 0 && FateOf(end.log, id) ==
        if s.nodes[i].dead then DroppedDead(id, m.dest) else OnWire(id, m.dest, m.content)
  {
    hide Inv, Homed, Runs, Fates, FateOf, IndexFrom, Ahead;
    AfterSwap(s, ts, end);
    PassEnds(Next(s, Swap), ts, end);
    DispatchedNextCycle(s, [Swap] + ts, end, id);
  }
}
