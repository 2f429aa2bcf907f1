/** What every interleaving of the bus engine keeps: buffers are conserved, and every accepted
    message has exactly one fate, at its own address, by the end of the next cycle's pass. */
module BusMachineLaws {
  import opened Bytes
  import opened BusTable
  import opened BusMachine

  // ---- Counting: how often a number occurs among buffers or queued messages -----------

  function BufOf(q: Queued): nat { q.buf }
  function IdOf(q: Queued): nat { q.id }

  function Count(s: seq<nat>, x: nat): nat {
    if s == [] then 0 else (if s[0] == x then 1 else 0) + Count(s[1..], x)
  }

  function Tally(f: Queued -> nat, qs: seq<Queued>, x: nat): nat {
    if qs == [] then 0 else (if f(qs[0]) == x then 1 else 0) + Tally(f, qs[1..], x)
  }

  function NodesTally(f: Queued -> nat, nodes: seq<Node<Queued>>, x: nat): nat {
    if nodes == [] then 0
    else
      var n := nodes[|nodes| - 1];
      NodesTally(f, nodes[..|nodes| - 1], x) + Tally(f, n.list0, x) + Tally(f, n.list1, x)
  }

  lemma {:induction false} CountConcat(a: seq<nat>, b: seq<nat>, x: nat)
    ensures Count(a + b, x) == Count(a, x) + Count(b, x)
  {
    if a == [] {
      assert a + b == b;
    } else {
      CountConcat(a[1..], b, x);
      assert (a + b)[1..] == a[1..] + b;
    }
  }

  lemma CountOne(b: nat, x: nat)
    ensures Count([b], x) == if b == x then 1 else 0
  {
  }

  lemma CountWithout(s: seq<nat>, k: nat, x: nat)
    requires k < |s|
    ensures Count(Without(s, k), x) + Count([s[k]], x) == Count(s, x)
  {
    assert s == s[..k] + ([s[k]] + s[k + 1..]);
    CountConcat(s[..k], [s[k]] + s[k + 1..], x);
    CountConcat([s[k]], s[k + 1..], x);
    CountConcat(s[..k], s[k + 1..], x);
  }

  lemma {:induction false} TallyConcat(f: Queued -> nat, a: seq<Queued>, b: seq<Queued>, x: nat)
    ensures Tally(f, a + b, x) == Tally(f, a, x) + Tally(f, b, x)
  {
    if a == [] {
      assert a + b == b;
    } else {
      TallyConcat(f, a[1..], b, x);
      assert (a + b)[1..] == a[1..] + b;
    }
  }

  lemma TallyOne(f: Queued -> nat, q: Queued, x: nat)
    ensures Tally(f, [q], x) == if f(q) == x then 1 else 0
    ensures Tally(f, [], x) == 0
  {
  }

  lemma TallyFront(f: Queued -> nat, q: Queued, qs: seq<Queued>, x: nat)
    ensures Tally(f, [q] + qs, x) == (if f(q) == x then 1 else 0) + Tally(f, qs, x)
  {
    TallyConcat(f, [q], qs, x);
    TallyOne(f, q, x);
  }

  lemma {:induction false} TallyReversed(f: Queued -> nat, s: seq<Queued>, x: nat)
    ensures Tally(f, Reversed(s), x) == Tally(f, s, x)
  {
    if s != [] {
      TallyReversed(f, s[1..], x);
      TallyConcat(f, Reversed(s[1..]), [s[0]], x);
      TallyOne(f, s[0], x);
    }
  }

  lemma {:induction false} TallyAllQueued(f: Queued -> nat, nodes: seq<Node<Queued>>, x: nat)
    ensures Tally(f, AllQueued(nodes), x) == NodesTally(f, nodes, x)
  {
    if nodes != [] {
      var init, n := nodes[..|nodes| - 1], nodes[|nodes| - 1];
      TallyAllQueued(f, init, x);
      TallyConcat(f, AllQueued(init) + n.list0, n.list1, x);
      TallyConcat(f, AllQueued(init), n.list0, x);
    }
  }

  /** Replacing one node moves its own tally only. */
  lemma {:induction false} TallyUpdate(f: Queued -> nat, nodes: seq<Node<Queued>>, i: nat, n: Node<Queued>, x: nat)
    requires i < |nodes|
    ensures NodesTally(f, nodes[i := n], x) + Tally(f, nodes[i].list0, x) + Tally(f, nodes[i].list1, x)
         == NodesTally(f, nodes, x) + Tally(f, n.list0, x) + Tally(f, n.list1, x)
  {
    hide Tally;
    var k := |nodes| - 1;
    if i < k {
      TallyUpdate(f, nodes[..k], i, n, x);
      assert nodes[i := n][..k] == nodes[..k][i := n];
    } else {
      assert nodes[i := n][..k] == nodes[..k];
    }
  }

  lemma {:induction false} TallyEmpty(f: Queued -> nat, nodes: seq<Node<Queued>>, x: nat)
    requires forall n :: n in nodes ==> n.list0 == [] && n.list1 == []
    ensures NodesTally(f, nodes, x) == 0
  {
    if nodes != [] {
      TallyEmpty(f, nodes[..|nodes| - 1], x);
    }
  }

  lemma {:induction false} TallySameLists(f: Queued -> nat, a: seq<Node<Queued>>, b: seq<Node<Queued>>, x: nat)
    requires |a| == |b|
    requires forall i :: 0 <= i < |a| ==> a[i].list0 == b[i].list0 && a[i].list1 == b[i].list1
    ensures NodesTally(f, a, x) == NodesTally(f, b, x)
  {
    if a != [] {
      TallySameLists(f, a[..|a| - 1], b[..|b| - 1], x);
    }
  }

  lemma {:induction false} TallyMember(f: Queued -> nat, qs: seq<Queued>, q: Queued)
    requires q in qs
    ensures Tally(f, qs, f(q)) > 0
  {
    if q != qs[0] {
      TallyMember(f, qs[1..], q);
    }
  }

  lemma {:induction false} NodesTallyMember(f: Queued -> nat, nodes: seq<Node<Queued>>, i: nat, q: Queued)
    requires i < |nodes| && (q in nodes[i].list0 || q in nodes[i].list1)
    ensures NodesTally(f, nodes, f(q)) > 0
  {
    var k := |nodes| - 1;
    if i < k {
      NodesTallyMember(f, nodes[..k], i, q);
    } else if q in nodes[k].list0 {
      TallyMember(f, nodes[k].list0, q);
    } else {
      TallyMember(f, nodes[k].list1, q);
    }
  }

  // ---- Conservation of buffers --------------------------------------------------------

  /** The queue entries the bus thread holds outside any lock. */
  function CycleHolds(pc: Pc): seq<Queued> {
    match pc
    case Orphaned(rest) => rest
    case Drain(_, chain) => chain
    case Release(_, sent, chain) => [sent] + chain
    case _ => []
  }

  /** In how many places buffer x is. */
  function Owners(s: State, x: nat): nat {
    Count(s.free, x) + Count(s.filling, x) + Count(s.rejected, x)
    + NodesTally(BufOf, s.nodes, x) + Tally(BufOf, CycleHolds(s.pc), x)
  }

  /** Free list, producers, node lists and bus thread partition the pool, and the counter is the
      length of the free list. */
  ghost predicate Conserved(s: State) {
    && s.avail == |s.free|
    && forall x: nat :: Owners(s, x) == if x < POOL_N then 1 else 0
  }

  /** No step moves a buffer into or out of existence. */
  lemma StepConserves(s: State, t: Step, x: nat)
    requires Shaped(s) && Enabled(s, t)
    ensures Owners(Next(s, t), x) == Owners(s, x)
    ensures s.avail == |s.free| ==> Next(s, t).avail == |Next(s, t).free|
  {
    hide Tally, NodesTally, Count, IndexOf, Reversed, AllQueued, Build;
    match t {
      case Grab => GrabConserves(s, x);
      case Fill(_, _) =>
      case Attach(k, dest) => AttachConserves(s, k, dest, x);
      case GiveBack(k) =>
        CountWithout(s.rejected, k, x);
        CountConcat([s.rejected[k]], s.free, x);
      case ChangeRoster(_, _) =>
      case Begin => BeginConserves(s, x);
      case RecoverOrphan =>
        TallyNone(BufOf, x);
        if s.pc.rest != [] {
          MoveToFree(s, s.pc.rest[0], s.pc.rest[1..], x);
          assert s.pc.rest == [s.pc.rest[0]] + s.pc.rest[1..];
        }
      case Swap =>
      case TakeHead => TakeConserves(s, x);
      case SendOrDrop =>
        TallyNone(BufOf, x);
        if s.pc.chain != [] {
          assert s.pc.chain == [s.pc.chain[0]] + s.pc.chain[1..];
        }
      case Recover => MoveToFree(s, s.pc.sent, s.pc.chain, x);
      case Polls(dead) => TallySameLists(BufOf, s.nodes, Next(s, t).nodes, x);
    }
  }

  lemma TallyNone(f: Queued -> nat, x: nat)
    ensures Tally(f, [], x) == 0
  {
  }

  lemma MoveToFree(s: State, q: Queued, rest: seq<Queued>, x: nat)
    ensures Count([q.buf] + s.free, x) + Tally(BufOf, rest, x) == Count(s.free, x) + Tally(BufOf, [q] + rest, x)
  {
    hide Tally, Count;
    CountConcat([q.buf], s.free, x);
    CountOne(q.buf, x);
    TallyFront(BufOf, q, rest, x);
  }

  lemma GrabConserves(s: State, x: nat)
    ensures Owners(Grabbed(s), x) == Owners(s, x)
  {
    hide Tally, NodesTally;
    if s.free != [] {
      assert s.free == [s.free[0]] + s.free[1..];
      CountConcat([s.free[0]], s.free[1..], x);
      CountConcat(s.filling, [s.free[0]], x);
    }
  }

  lemma AttachConserves(s: State, k: nat, dest: byte, x: nat)
    requires Shaped(s) && k < |s.filling|
    ensures Owners(Attached(s, k, dest), x) == Owners(s, x)
  {
    hide NodesTally, Tally, Count;
    var b, i := s.filling[k], IndexOf(s.nodes, dest);
    CountWithout(s.filling, k, x);
    CountOne(b, x);
    if i >= 0 {
      var n := s.nodes[i];
      TallyUpdate(BufOf, s.nodes, i, Attached(s, k, dest).nodes[i], x);
      TallyFront(BufOf, Queued(b, |s.accepted|), n.List(!s.active), x);
    } else {
      CountConcat(s.rejected, [b], x);
    }
  }

  lemma BeginConserves(s: State, x: nat)
    requires s.pc.Start?
    ensures Owners(Begun(s), x) == Owners(s, x)
  {
    hide Tally, NodesTally, Count, Reversed, AllQueued, Build;
    TallyNone(BufOf, x);
    if s.dirty {
      var all := AllQueued(s.nodes);
      TallyAllQueued(BufOf, s.nodes, x);
      TallyReversed(BufOf, all, x);
      assert Pushed(all, []) == Reversed(all);
      BuildFresh<Queued>(s.roster);
      TallyEmpty(BufOf, Build<Queued>(s.roster), x);
    }
  }

  lemma TakeConserves(s: State, x: nat)
    requires s.pc.Take?
    ensures Owners(Taken(s, s.pc.i), x) == Owners(s, x)
  {
    hide NodesTally, Tally, Count;
    TallyNone(BufOf, x);
    if s.pc.i < |s.nodes| {
      TallyUpdate(BufOf, s.nodes, s.pc.i, Taken(s, s.pc.i).nodes[s.pc.i], x);
    }
  }

  // ---- The fate of messages -----------------------------------------------------------

  function Fates(log: seq<Event>, x: nat): nat {
    if log == [] then 0 else Fates(log[..|log| - 1], x) + if log[|log| - 1].id == x then 1 else 0
  }

  lemma {:induction false} FatesConcat(a: seq<Event>, b: seq<Event>, x: nat)
    ensures Fates(a + b, x) == Fates(a, x) + Fates(b, x)
  {
    if b == [] {
      assert a + b == a;
    } else {
      FatesConcat(a, b[..|b| - 1], x);
      assert (a + b)[..|a + b| - 1] == a + b[..|b| - 1];
    }
  }

  lemma {:induction false} FatesOfDiscards(qs: seq<Queued>, x: nat)
    ensures Fates(Discards(qs), x) == Tally(IdOf, qs, x)
    ensures forall e :: e in Discards(qs) ==> e.Discarded? && Tally(IdOf, qs, e.id) > 0
  {
    if qs != [] {
      var init, q := qs[..|qs| - 1], qs[|qs| - 1];
      FatesOfDiscards(init, x);
      assert qs == init + [q];
      TallyConcat(IdOf, init, [q], x);
      TallyOne(IdOf, q, x);
      forall e | e in Discards(qs)
        ensures e.Discarded? && Tally(IdOf, qs, e.id) > 0
      {
        TallyConcat(IdOf, init, [q], e.id);
        TallyOne(IdOf, q, e.id);
      }
    }
  }

  /** Queue entries in the bus thread's hands whose message has not been dealt with yet. */
  function Unsent(pc: Pc): seq<Queued> {
    match pc
    case Drain(_, chain) => chain
    case Release(_, _, chain) => chain
    case _ => []
  }

  /** On how many lists, or how often in the log, message x is. */
  function Whereabouts(s: State, x: nat): nat {
    NodesTally(IdOf, s.nodes, x) + Tally(IdOf, Unsent(s.pc), x) + Fates(s.log, x)
  }

  /** Every accepted message is queued once or has exactly one fate. */
  ghost predicate Tracked(s: State) {
    forall x: nat :: Whereabouts(s, x) == if x < |s.accepted| then 1 else 0
  }

  predicate Accepts(s: State, t: Step) {
    t.Attach? && IndexOf(s.nodes, t.dest) >= 0
  }

  /** A step queues the message it accepts, and neither loses nor repeats any other. */
  lemma StepTracks(s: State, t: Step, x: nat)
    requires Shaped(s) && Enabled(s, t)
    ensures Whereabouts(Next(s, t), x) == Whereabouts(s, x) + if Accepts(s, t) && x == |s.accepted| then 1 else 0
  {
    hide Tally, NodesTally, Fates, IndexFrom, Attached, Begun, Taken, Sent;
    TallyNone(IdOf, x);
    match t {
      case Grab =>
      case Fill(_, _) =>
      case Attach(k, dest) => AttachTracks(s, k, dest, x);
      case GiveBack(_) =>
      case ChangeRoster(_, _) =>
      case Begin => BeginTracks(s, x);
      case RecoverOrphan =>
      case Swap =>
      case TakeHead => TakeTracks(s, x);
      case SendOrDrop => SendTracks(s, x);
      case Recover =>
      case Polls(dead) => TallySameLists(IdOf, s.nodes, Next(s, t).nodes, x);
    }
  }

  lemma AttachTracks(s: State, k: nat, dest: byte, x: nat)
    requires Shaped(s) && k < |s.filling|
    ensures Whereabouts(Attached(s, k, dest), x) ==
      Whereabouts(s, x) + if IndexOf(s.nodes, dest) >= 0 && x == |s.accepted| then 1 else 0
  {
    hide Tally, NodesTally, Fates, IndexFrom;
    var i := IndexOf(s.nodes, dest);
    if i >= 0 {
      TallyUpdate(IdOf, s.nodes, i, Attached(s, k, dest).nodes[i], x);
      TallyFront(IdOf, Queued(s.filling[k], |s.accepted|), s.nodes[i].List(!s.active), x);
    }
  }

  lemma TakeTracks(s: State, x: nat)
    requires s.pc.Take?
    ensures Whereabouts(Taken(s, s.pc.i), x) == Whereabouts(s, x)
  {
    hide Tally, NodesTally, Fates;
    TallyNone(IdOf, x);
    if s.pc.i < |s.nodes| {
      TallyUpdate(IdOf, s.nodes, s.pc.i, Taken(s, s.pc.i).nodes[s.pc.i], x);
    }
  }

  lemma SendTracks(s: State, x: nat)
    requires Shaped(s) && s.pc.Drain?
    ensures Whereabouts(Sent(s, s.pc.i, s.pc.chain), x) == Whereabouts(s, x)
  {
    hide Tally, NodesTally, Fates;
    TallyNone(IdOf, x);
    if s.pc.chain != [] {
      assert s.pc.chain == [s.pc.chain[0]] + s.pc.chain[1..];
      TallyFront(IdOf, s.pc.chain[0], s.pc.chain[1..], x);
      FatesOne(s.log, Sent(s, s.pc.i, s.pc.chain).log[|s.log|], x);
    }
  }

  lemma FatesOne(log: seq<Event>, e: Event, x: nat)
    ensures Fates(log + [e], x) == Fates(log, x) + if e.id == x then 1 else 0
  {
  }

  lemma BeginTracks(s: State, x: nat)
    requires s.pc.Start?
    ensures Whereabouts(Begun(s), x) == Whereabouts(s, x)
  {
    hide Tally, NodesTally, Fates, Reversed, AllQueued, Build, Discards;
    TallyNone(IdOf, x);
    if s.dirty {
      var all := AllQueued(s.nodes);
      TallyAllQueued(IdOf, s.nodes, x);
      TallyReversed(IdOf, all, x);
      assert Pushed(all, []) == Reversed(all);
      FatesOfDiscards(Reversed(all), x);
      FatesConcat(s.log, Discards(Reversed(all)), x);
      BuildFresh<Queued>(s.roster);
      TallyEmpty(IdOf, Build<Queued>(s.roster), x);
    }
  }

  /** Queue entry q carries an accepted message for the node at `addr`, unaltered. */
  ghost predicate Carries(s: State, q: Queued, addr: byte, epoch: int) {
    && q.buf < |s.contents| && q.id < |s.accepted|
    && s.accepted[q.id] == Message(addr, s.contents[q.buf], s.accepted[q.id].epoch)
    && s.accepted[q.id].epoch == epoch
  }

  ghost predicate AllCarry(s: State, qs: seq<Queued>, addr: byte, epoch: int) {
    forall q :: q in qs ==> Carries(s, q, addr, epoch)
  }

  /** Below this node index the lists being drained are empty; outside a pass all of them are. */
  function Drained(s: State): nat {
    match s.pc
    case Take(i) => i
    case Drain(i, _) => i + 1
    case Release(i, _, _) => i + 1
    case _ => |s.nodes|
  }

  ghost predicate FateOk(s: State, e: Event) {
    && e.id < |s.accepted|
    && match e
       case OnWire(id, addr, content) => addr == s.accepted[id].dest && content == s.accepted[id].content
       case DroppedDead(id, addr) => addr == s.accepted[id].dest
       case Discarded(_) => true
  }

  /** Producers only fill one list of each node, and the cycle only drains the other, whose
      messages all date from before the last swap. */
  ghost predicate Placed(s: State) {
    && |s.contents| == POOL_N
    && (forall i :: 0 <= i < |s.nodes| ==> AllCarry(s, s.nodes[i].List(!s.active), s.nodes[i].addr, s.swaps))
    && (forall i :: 0 <= i < |s.nodes| ==> AllCarry(s, s.nodes[i].List(s.active), s.nodes[i].addr, s.swaps - 1))
    && (forall i :: 0 <= i < |s.nodes| && i < Drained(s) ==> s.nodes[i].List(s.active) == [])
    && (s.pc.Drain? || s.pc.Release? ==>
          s.pc.i < |s.nodes| && AllCarry(s, s.pc.chain, s.nodes[s.pc.i].addr, s.swaps - 1))
    && forall e :: e in s.log ==> FateOk(s, e)
  }

  ghost predicate Inv(s: State) {
    Conserved(s) && Tracked(s) && Placed(s)
  }

  lemma {:induction false} CountMember(s: seq<nat>, b: nat)
    requires b in s
    ensures Count(s, b) > 0
  {
    if s[0] != b {
      CountMember(s[1..], b);
    }
  }

  lemma InvShaped(s: State)
    requires Inv(s)
    ensures Shaped(s)
  {
    hide NodesTally, Tally;
    forall i | 0 <= i < |s.filling|
      ensures s.filling[i] < POOL_N
    {
      CountMember(s.filling, s.filling[i]);
      assert Owners(s, s.filling[i]) > 0;
    }
    if s.pc.Drain? {
      forall k | 0 <= k < |s.pc.chain|
        ensures s.pc.chain[k].buf < POOL_N
      {
        assert Carries(s, s.pc.chain[k], s.nodes[s.pc.i].addr, s.swaps - 1);
      }
    }
  }

  /** A buffer held by a producer is on no list and not in the bus thread's hands. */
  lemma FillingIsPrivate(s: State, k: nat)
    requires Conserved(s) && k < |s.filling|
    ensures forall i, q :: 0 <= i < |s.nodes| && (q in s.nodes[i].list0 || q in s.nodes[i].list1) ==>
      q.buf != s.filling[k]
    ensures forall q :: q in CycleHolds(s.pc) ==> q.buf != s.filling[k]
  {
    hide NodesTally, Tally, Count;
    var b := s.filling[k];
    CountMember(s.filling, b);
    assert Owners(s, b) <= 1;
    forall i, q | 0 <= i < |s.nodes| && (q in s.nodes[i].list0 || q in s.nodes[i].list1)
      ensures q.buf != b
    {
      NodesTallyMember(BufOf, s.nodes, i, q);
    }
    forall q | q in CycleHolds(s.pc)
      ensures q.buf != b
    {
      TallyMember(BufOf, CycleHolds(s.pc), q);
    }
  }

  lemma FillPlaced(s: State, k: nat, c: Content)
    requires Inv(s) && k < |s.filling| && s.filling[k] < |s.contents|
    ensures Placed(s.(contents := s.contents[s.filling[k] := c]))
  {
    FillingIsPrivate(s, k);
    hide Tracked, Conserved;
    var s' := s.(contents := s.contents[s.filling[k] := c]);
    forall i | 0 <= i < |s.nodes|
      ensures AllCarry(s', s'.nodes[i].List(!s.active), s'.nodes[i].addr, s.swaps)
      ensures AllCarry(s', s'.nodes[i].List(s.active), s'.nodes[i].addr, s.swaps - 1)
    {
      assert AllCarry(s, s.nodes[i].List(!s.active), s.nodes[i].addr, s.swaps);
      assert AllCarry(s, s.nodes[i].List(s.active), s.nodes[i].addr, s.swaps - 1);
    }
    forall e | e in s'.log
      ensures FateOk(s', e)
    {
      assert FateOk(s, e);
    }
    if s.pc.Release? {
      assert CycleHolds(s.pc) == [s.pc.sent] + s.pc.chain;
    }
  }

  lemma FatesStay(s: State, s': State)
    requires s.accepted <= s'.accepted && s'.log == s.log
    requires forall e :: e in s.log ==> FateOk(s, e)
    ensures forall e :: e in s'.log ==> FateOk(s', e)
  {
    forall e | e in s'.log
      ensures FateOk(s', e)
    {
      assert FateOk(s, e);
    }
  }

  lemma AcceptedCarry(s: State, s': State, qs: seq<Queued>, addr: byte, epoch: int)
    requires s.contents == s'.contents && s.accepted <= s'.accepted
    requires AllCarry(s, qs, addr, epoch)
    ensures AllCarry(s', qs, addr, epoch)
  {
    forall q | q in qs
      ensures Carries(s', q, addr, epoch)
    {
      assert Carries(s, q, addr, epoch);
    }
  }

  lemma AttachLists(s: State, k: nat, dest: byte, j: nat)
    requires Shaped(s) && Placed(s) && k < |s.filling| && IndexOf(s.nodes, dest) >= 0 && j < |s.nodes|
    ensures
      var s' := Attached(s, k, dest);
      && AllCarry(s', s'.nodes[j].List(!s.active), s'.nodes[j].addr, s.swaps)
      && AllCarry(s', s'.nodes[j].List(s.active), s'.nodes[j].addr, s.swaps - 1)
      && s'.nodes[j].addr == s.nodes[j].addr
      && s'.nodes[j].List(s.active) == s.nodes[j].List(s.active)
  {
    hide IndexFrom, Carries, FateOk;
    var s' := Attached(s, k, dest);
    var fill, drain := s.nodes[j].List(!s.active), s.nodes[j].List(s.active);
    AcceptedCarry(s, s', fill, s.nodes[j].addr, s.swaps);
    AcceptedCarry(s, s', drain, s.nodes[j].addr, s.swaps - 1);
    NewCarries(s, k, dest);
  }

  lemma NewCarries(s: State, k: nat, dest: byte)
    requires Shaped(s) && k < |s.filling| && IndexOf(s.nodes, dest) >= 0
    ensures Carries(Attached(s, k, dest), Queued(s.filling[k], |s.accepted|), dest, s.swaps)
  {
  }

  lemma AttachPlaced(s: State, k: nat, dest: byte)
    requires Shaped(s) && Placed(s) && k < |s.filling|
    ensures Placed(Attached(s, k, dest))
  {
    hide IndexFrom, Carries, FateOk, AllCarry;
    var s', i := Attached(s, k, dest), IndexOf(s.nodes, dest);
    FatesStay(s, s');
    if s.pc.Drain? || s.pc.Release? {
      AcceptedCarry(s, s', s.pc.chain, s.nodes[s.pc.i].addr, s.swaps - 1);
    }
    forall j | 0 <= j < |s.nodes|
      ensures
        && AllCarry(s', s'.nodes[j].List(!s.active), s'.nodes[j].addr, s.swaps)
        && AllCarry(s', s'.nodes[j].List(s.active), s'.nodes[j].addr, s.swaps - 1)
        && s'.nodes[j].addr == s.nodes[j].addr
        && s'.nodes[j].List(s.active) == s.nodes[j].List(s.active)
    {
      if i >= 0 {
        AttachLists(s, k, dest, j);
      } else {
        AcceptedCarry(s, s', s.nodes[j].List(!s.active), s.nodes[j].addr, s.swaps);
        AcceptedCarry(s, s', s.nodes[j].List(s.active), s.nodes[j].addr, s.swaps - 1);
      }
    }
  }

  /** Steps that move no message between the lists: the lists, their addresses, the accepted
      messages and the contents stay, and the drained part does not shrink. */
  lemma StillPlaced(s: State, s': State)
    requires Placed(s)
    requires s'.contents == s.contents && s'.accepted == s.accepted && s'.log == s.log && s'.swaps == s.swaps
    requires s'.active == s.active && |s'.nodes| == |s.nodes|
    requires forall i :: 0 <= i < |s.nodes| ==> SameLists(s'.nodes[i], s.nodes[i])
    requires Drained(s') <= Drained(s)
    requires s'.pc.Drain? || s'.pc.Release? ==>
      (s.pc.Drain? || s.pc.Release?) && s'.pc.i == s.pc.i && s'.pc.chain == s.pc.chain
    ensures Placed(s')
  {
    hide Carries, FateOk, AllCarry;
    FatesStay(s, s');
    forall i | 0 <= i < |s.nodes|
      ensures AllCarry(s', s'.nodes[i].List(!s.active), s'.nodes[i].addr, s.swaps)
      ensures AllCarry(s', s'.nodes[i].List(s.active), s'.nodes[i].addr, s.swaps - 1)
      ensures s'.nodes[i].List(s.active) == s.nodes[i].List(s.active)
    {
      assert SameLists(s'.nodes[i], s.nodes[i]);
      AcceptedCarry(s, s', s.nodes[i].List(!s.active), s.nodes[i].addr, s.swaps);
      AcceptedCarry(s, s', s.nodes[i].List(s.active), s.nodes[i].addr, s.swaps - 1);
    }
    if s'.pc.Drain? || s'.pc.Release? {
      assert SameLists(s'.nodes[s.pc.i], s.nodes[s.pc.i]);
      AcceptedCarry(s, s', s.pc.chain, s.nodes[s.pc.i].addr, s.swaps - 1);
    }
  }

  ghost predicate SameLists(a: Node<Queued>, b: Node<Queued>) {
    a.addr == b.addr && a.list0 == b.list0 && a.list1 == b.list1
  }

  /** What a rebuild discards are messages that were queued. */
  lemma DiscardsOk(s: State, e: Event)
    requires Tracked(s) && e in Discards(Pushed(AllQueued(s.nodes), []))
    ensures e.Discarded? && e.id < |s.accepted|
  {
    var all := AllQueued(s.nodes);
    hide Tally, NodesTally, Fates, Reversed, AllQueued, Discards;
    assert Pushed(all, []) == Reversed(all);
    FatesOfDiscards(Reversed(all), 0);
    TallyReversed(IdOf, all, e.id);
    TallyAllQueued(IdOf, s.nodes, e.id);
    assert Whereabouts(s, e.id) > 0;
  }

  lemma RebuiltPlaced(s: State)
    requires Tracked(s) && Placed(s) && s.pc.Start? && s.dirty
    ensures Placed(Begun(s))
  {
    hide Tracked, Carries, Build, AllQueued, Discards, Reversed;
    var s' := Begun(s);
    BuildFresh<Queued>(s.roster);
    forall e | e in s'.log
      ensures FateOk(s', e)
    {
      if e in s.log {
        assert FateOk(s, e);
      } else {
        assert e in Discards(Pushed(AllQueued(s.nodes), []));
        DiscardsOk(s, e);
      }
    }
  }

  lemma BeginPlaced(s: State)
    requires Inv(s) && s.pc.Start?
    ensures Placed(Begun(s))
  {
    hide Conserved, Tracked, Carries, FateOk, AllCarry, Build, AllQueued, Discards, Reversed;
    if s.dirty {
      RebuiltPlaced(s);
    } else {
      StillPlaced(s, Begun(s));
    }
  }

  lemma SwapPlaced(s: State)
    requires Placed(s) && s.pc.Ready?
    ensures Placed(s.(active := !s.active, swaps := s.swaps + 1, pc := Take(0)))
  {
    var s' := s.(active := !s.active, swaps := s.swaps + 1, pc := Take(0));
    hide Carries, FateOk;
    FatesStay(s, s');
    forall i | 0 <= i < |s.nodes|
      ensures AllCarry(s', s'.nodes[i].List(!s'.active), s'.nodes[i].addr, s'.swaps)
      ensures AllCarry(s', s'.nodes[i].List(s'.active), s'.nodes[i].addr, s'.swaps - 1)
    {
      AcceptedCarry(s, s', s.nodes[i].List(!s.active), s.nodes[i].addr, s.swaps);
      assert s.nodes[i].List(s.active) == [];
    }
  }

  lemma TakePlaced(s: State)
    requires Placed(s) && s.pc.Take?
    ensures Placed(Taken(s, s.pc.i))
  {
    hide Carries, FateOk;
    var s', n := Taken(s, s.pc.i), s.pc.i;
    FatesStay(s, s');
    forall i | 0 <= i < |s.nodes|
      ensures AllCarry(s', s.nodes[i].List(!s.active), s.nodes[i].addr, s.swaps)
      ensures AllCarry(s', s.nodes[i].List(s.active), s.nodes[i].addr, s.swaps - 1)
    {
      AcceptedCarry(s, s', s.nodes[i].List(!s.active), s.nodes[i].addr, s.swaps);
      AcceptedCarry(s, s', s.nodes[i].List(s.active), s.nodes[i].addr, s.swaps - 1);
    }
  }

  lemma SendPlaced(s: State)
    requires Shaped(s) && Placed(s) && s.pc.Drain?
    ensures Placed(Sent(s, s.pc.i, s.pc.chain))
  {
    var s' := Sent(s, s.pc.i, s.pc.chain);
    SentFates(s);
    hide FateOk, Carries;
    forall i | 0 <= i < |s.nodes|
      ensures AllCarry(s', s.nodes[i].List(!s.active), s.nodes[i].addr, s.swaps)
      ensures AllCarry(s', s.nodes[i].List(s.active), s.nodes[i].addr, s.swaps - 1)
    {
      AcceptedCarry(s, s', s.nodes[i].List(!s.active), s.nodes[i].addr, s.swaps);
      AcceptedCarry(s, s', s.nodes[i].List(s.active), s.nodes[i].addr, s.swaps - 1);
    }
    AcceptedCarry(s, s', s.pc.chain, s.nodes[s.pc.i].addr, s.swaps - 1);
  }

  lemma SentFates(s: State)
    requires Shaped(s) && Placed(s) && s.pc.Drain?
    ensures forall e :: e in Sent(s, s.pc.i, s.pc.chain).log ==> FateOk(Sent(s, s.pc.i, s.pc.chain), e)
  {
    var s' := Sent(s, s.pc.i, s.pc.chain);
    if s.pc.chain != [] {
      assert Carries(s, s.pc.chain[0], s.nodes[s.pc.i].addr, s.swaps - 1);
      SentFate(s);
    }
    hide FateOk, Carries, AllCarry;
    forall e | e in s'.log
      ensures FateOk(s', e)
    {
      if e in s.log {
        SameFate(s, s', e);
      }
    }
  }

  lemma SameFate(s: State, s': State, e: Event)
    requires s.accepted == s'.accepted
    ensures FateOk(s, e) <==> FateOk(s', e)
  {
  }

  lemma SentFate(s: State)
    requires Shaped(s) && s.pc.Drain? && s.pc.chain != []
    requires Carries(s, s.pc.chain[0], s.nodes[s.pc.i].addr, s.swaps - 1)
    ensures var s' := Sent(s, s.pc.i, s.pc.chain);
      |s'.log| == |s.log| + 1 && s'.log[..|s.log|] == s.log && FateOk(s', s'.log[|s.log|])
  {
  }

  /** What producers and roster changes do. */
  lemma ProducerPlaced(s: State, t: Step)
    requires Inv(s) && Shaped(s) && Enabled(s, t) && (t.Grab? || t.Fill? || t.Attach? || t.GiveBack? || t.ChangeRoster?)
    ensures Placed(Next(s, t))
  {
    hide Conserved, Tracked, Carries, FateOk, AllCarry, Attached, IndexFrom;
    match t {
      case Grab => StillPlaced(s, Next(s, t));
      case Fill(k, c) => FillPlaced(s, k, c);
      case Attach(k, dest) => AttachPlaced(s, k, dest);
      case GiveBack(_) => StillPlaced(s, Next(s, t));
      case ChangeRoster(_, _) => StillPlaced(s, Next(s, t));
    }
  }

  /** What the bus thread does in its message pass. */
  lemma PassPlaced(s: State, t: Step)
    requires Inv(s) && Shaped(s) && Enabled(s, t) && (t.TakeHead? || t.SendOrDrop? || t.Recover?)
    ensures Placed(Next(s, t))
  {
    hide Conserved, Tracked, Carries, FateOk, AllCarry, Taken, Sent;
    match t {
      case TakeHead => TakePlaced(s);
      case SendOrDrop => SendPlaced(s);
      case Recover => StillPlaced(s, Next(s, t));
    }
  }

  lemma StepPlaced(s: State, t: Step)
    requires Inv(s) && Shaped(s) && Enabled(s, t)
    ensures Placed(Next(s, t))
  {
    hide Conserved, Tracked, Carries, FateOk, AllCarry, Begun, Attached, Taken, Sent;
    match t {
      case Begin => BeginPlaced(s);
      case RecoverOrphan => StillPlaced(s, Next(s, t));
      case Swap => SwapPlaced(s);
      case TakeHead => PassPlaced(s, t);
      case SendOrDrop => PassPlaced(s, t);
      case Recover => PassPlaced(s, t);
      case Polls(dead) => StillPlaced(s, Next(s, t));
      case _ => ProducerPlaced(s, t);
    }
  }

  /** Every step of every interleaving keeps the invariant. */
  lemma StepInv(s: State, t: Step)
    requires Inv(s) && Shaped(s) && Enabled(s, t)
    ensures Inv(Next(s, t)) && Shaped(Next(s, t))
  {
    hide Next, Owners, Whereabouts;
    StepPlaced(s, t);
    forall x: nat
      ensures Owners(Next(s, t), x) == if x < POOL_N then 1 else 0
      ensures Whereabouts(Next(s, t), x) == if x < |Next(s, t).accepted| then 1 else 0
    {
      StepConserves(s, t, x);
      StepTracks(s, t, x);
      AcceptedGrows(s, t);
    }
    StepConserves(s, t, 0);
    InvShaped(Next(s, t));
  }

  lemma AcceptedGrows(s: State, t: Step)
    requires Shaped(s) && Enabled(s, t)
    ensures |Next(s, t).accepted| == |s.accepted| + if Accepts(s, t) then 1 else 0
    ensures s.log <= Next(s, t).log
  {
  }

  // ---- Exactly once -------------------------------------------------------------------

  lemma {:induction false} TallyWitness(f: Queued -> nat, qs: seq<Queued>, x: nat) returns (q: Queued)
    requires Tally(f, qs, x) > 0
    ensures q in qs && f(q) == x
  {
    if f(qs[0]) == x {
      q := qs[0];
    } else {
      q := TallyWitness(f, qs[1..], x);
    }
  }

  lemma {:induction false} NodesTallyWitness(f: Queued -> nat, nodes: seq<Node<Queued>>, x: nat)
    returns (i: nat, q: Queued)
    requires NodesTally(f, nodes, x) > 0
    ensures i < |nodes| && (q in nodes[i].list0 || q in nodes[i].list1) && f(q) == x
  {
    var n := nodes[|nodes| - 1];
    if Tally(f, n.list0, x) > 0 {
      i := |nodes| - 1;
      q := TallyWitness(f, n.list0, x);
    } else if Tally(f, n.list1, x) > 0 {
      i := |nodes| - 1;
      q := TallyWitness(f, n.list1, x);
    } else {
      i, q := NodesTallyWitness(f, nodes[..|nodes| - 1], x);
    }
  }

  ghost predicate InPass(s: State) {
    s.pc.Take? || s.pc.Drain? || s.pc.Release?
  }

  /** Outside a message pass only messages accepted since the last swap are queued. */
  lemma QueuedIsCurrent(s: State, i: nat, q: Queued)
    requires Placed(s) && !InPass(s) && i < |s.nodes| && (q in s.nodes[i].list0 || q in s.nodes[i].list1)
    ensures q.id < |s.accepted| && s.accepted[q.id].epoch == s.swaps
  {
    assert s.nodes[i].List(s.active) == [];
    assert q in s.nodes[i].List(!s.active);
    assert Carries(s, q, s.nodes[i].addr, s.swaps);
  }

  /** Outside a message pass nothing accepted before the last swap is still queued: it has had
      exactly one fate. */
  lemma NothingLeftOver(s: State, id: nat)
    requires Inv(s) && !InPass(s) && id < |s.accepted| && s.accepted[id].epoch < s.swaps
    ensures Fates(s.log, id) == 1
  {
    hide NodesTally, Tally, Fates, Conserved;
    TallyNone(IdOf, id);
    if NodesTally(IdOf, s.nodes, id) > 0 {
      var i, q := NodesTallyWitness(IdOf, s.nodes, id);
      QueuedIsCurrent(s, i, q);
    }
    assert Whereabouts(s, id) == 1;
  }

  /** An undecided message sits on a list, so its epoch is no later than the present. */
  lemma EpochBound(s: State, id: nat)
    requires Inv(s) && !InPass(s) && id < |s.accepted| && Fates(s.log, id) == 0
    ensures s.accepted[id].epoch <= s.swaps
  {
    hide NodesTally, Tally, Fates, Conserved;
    TallyNone(IdOf, id);
    assert Whereabouts(s, id) == 1;
    var i, q := NodesTallyWitness(IdOf, s.nodes, id);
    QueuedIsCurrent(s, i, q);
  }
}
