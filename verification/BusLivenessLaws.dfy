/** When a node counts as dead, that the host's roster says the same, and how soon a dead node is
    asked again. */
module BusLivenessLaws {
  import opened Bytes
  import opened BusTable
  import opened BusLiveness

  /** The number of unanswered polls that make a node dead: a limit of 0 acts as 1. */
  function Limit(c: Config): nat { if c.limit == 0 then 1 else c.limit }

  /** How many polls at the end of a history went unanswered. */
  function Trailing(polls: seq<bool>): nat {
    if polls == [] || polls[|polls| - 1] then 0 else 1 + Trailing(polls[..|polls| - 1])
  }

  ghost predicate DistinctAddrs(nodes: seq<Node<nat>>) {
    forall i, j :: 0 <= i < j < |nodes| ==> nodes[i].addr != nodes[j].addr
  }

  /** The roster entry of a node agrees with it. */
  ghost predicate Mirrors(roster: seq<Slave>, n: Node<nat>) {
    var j := SlaveOf(roster, n.addr);
    j >= 0 && roster[j].misses == n.miss && (roster[j].state == Dead <==> n.dead)
  }

  ghost predicate Agree(st: State, c: Config) {
    && DistinctAddrs(st.nodes)
    && (forall i :: 0 <= i < |st.nodes| ==> Mirrors(st.roster, st.nodes[i]))
    && forall i :: 0 <= i < |st.nodes| && !st.nodes[i].dead ==> st.nodes[i].miss < Limit(c)
  }

  // ---- One node's update --------------------------------------------------------------

  lemma {:induction false} SlaveFromSame(a: seq<Slave>, b: seq<Slave>, addr: byte, i: nat)
    requires |a| == |b| && i <= |a| && forall k :: 0 <= k < |a| ==> a[k].addr == b[k].addr
    ensures SlaveFrom(a, addr, i) == SlaveFrom(b, addr, i)
    decreases |a| - i
  {
    if i < |a| {
      SlaveFromSame(a, b, addr, i + 1);
    }
  }

  /** Marking one address leaves the entries found for all others. */
  lemma MarkFrame(roster: seq<Slave>, addr: byte, limit: byte, n: Node<nat>)
    requires n.addr != addr && Mirrors(roster, n)
    ensures Mirrors(MarkAlive(roster, addr), n) && Mirrors(MarkMiss(roster, addr, limit), n)
  {
    SlaveFromSame(roster, MarkAlive(roster, addr), n.addr, 0);
    SlaveFromSame(roster, MarkMiss(roster, addr, limit), n.addr, 0);
  }

  lemma MarkMirrors(roster: seq<Slave>, c: Config, n: Node<nat>)
    requires Mirrors(roster, n)
    ensures Mirrors(MarkAlive(roster, n.addr), n.(miss := 0, dead := false))
    ensures !n.dead && n.miss < Limit(c) ==> Mirrors(MarkMiss(roster, n.addr, c.limit), NodeMissed(n, c.limit))
  {
    SlaveFromSame(roster, MarkAlive(roster, n.addr), n.addr, 0);
    SlaveFromSame(roster, MarkMiss(roster, n.addr, c.limit), n.addr, 0);
  }

  lemma SweepOneAgrees(st: State, c: Config, x: Input, i: nat)
    requires Fits(st, x) && i < |st.nodes| && Agree(st, c)
    ensures Agree(SweepOne(st, x, i, c.limit), c)
  {
    hide MarkAlive, MarkMiss, Mirrors;
    var st' := SweepOne(st, x, i, c.limit);
    if Swept(st, x, i) {
      MarkMirrors(st.roster, c, st.nodes[i]);
      forall k | 0 <= k < |st.nodes|
        ensures Mirrors(st'.roster, st'.nodes[k])
      {
        if k != i {
          assert st'.nodes[k] == st.nodes[k];
          assert st.nodes[k].addr != st.nodes[i].addr;
          MarkFrame(st.roster, st.nodes[i].addr, c.limit, st.nodes[k]);
        }
      }
    }
  }

  lemma ProbeAgrees(st: State, c: Config, answer: bool)
    requires Agree(st, c)
    ensures Agree(Probe(st, c, answer), c)
  {
    hide MarkAlive, MarkMiss, Mirrors, DeadFrom;
    var st', p := Probe(st, c, answer), Probed(st, c);
    if p.Some? && answer {
      var i := p.value;
      MarkMirrors(st.roster, c, st.nodes[i]);
      forall k | 0 <= k < |st.nodes|
        ensures Mirrors(st'.roster, st'.nodes[k])
      {
        if k != i {
          assert st'.nodes[k] == st.nodes[k];
          assert st.nodes[k].addr != st.nodes[i].addr;
          MarkFrame(st.roster, st.nodes[i].addr, c.limit, st.nodes[k]);
        }
      }
    }
  }

  lemma {:induction false} SweepAgrees(st: State, c: Config, x: Input, n: nat)
    requires Fits(st, x) && n <= |st.nodes| && Agree(st, c)
    ensures Agree(Sweep(st, x, n, c.limit), c)
  {
    hide Agree, SweepOne;
    if n > 0 {
      SweepAgrees(st, c, x, n - 1);
      SweepOneAgrees(Sweep(st, x, n - 1, c.limit), c, x, n - 1);
    }
  }

  /** After every cycle the host's roster and the node table say the same of every node. */
  lemma CycleAgrees(st: State, c: Config, x: Input)
    requires Fits(st, x) && Agree(st, c)
    ensures Agree(Cycle(st, c, x), c)
  {
    hide Agree, Sweep, Probe;
    SweepAgrees(st, c, x, |st.nodes|);
    ProbeAgrees(Sweep(st, x, |st.nodes|, c.limit), c, x.probeAnswer);
  }

  // ---- Dead exactly after so many consecutive misses ----------------------------------

  function NodeSwept(n: Node<nat>, marked: bool, answer: bool, limit: byte): Node<nat> {
    if n.dead || marked then n else if answer then n.(miss := 0) else NodeMissed(n, limit)
  }

  lemma {:induction false} SweepNodes(st: State, x: Input, n: nat, limit: byte)
    requires Fits(st, x) && n <= |st.nodes|
    ensures var st' := Sweep(st, x, n, limit);
      && (forall k :: n <= k < |st.nodes| ==> st'.nodes[k] == st.nodes[k])
      && (forall k :: 0 <= k < n ==> st'.nodes[k] == NodeSwept(st.nodes[k], x.marked[k], x.answers[k], limit))
      && st'.tick == st.tick && st'.cursor == st.cursor
  {
    hide MarkAlive, MarkMiss, NodeMissed;
    if n > 0 {
      SweepNodes(st, x, n - 1, limit);
    }
  }

  /** The polls of node i in one cycle that count: its sweep poll, and a probe it answered. */
  function PollsOf(st: State, c: Config, x: Input, i: nat): seq<bool>
    requires Fits(st, x) && i < |st.nodes|
  {
    (if Swept(st, x, i) then [x.answers[i]] else [])
    + (if Probed(Sweep(st, x, |st.nodes|, c.limit), c) == Some(i) && x.probeAnswer then [true] else [])
  }

  /** A node is dead exactly when its last polls, as many as the limit, all went unanswered. */
  ghost predicate Counts(n: Node<nat>, polls: seq<bool>, c: Config) {
    n.miss == Trailing(polls) <= Limit(c) && (n.dead <==> Trailing(polls) == Limit(c))
  }

  lemma CountsStep(n: Node<nat>, polls: seq<bool>, c: Config)
    requires Counts(n, polls, c)
    ensures !n.dead ==> Counts(NodeSwept(n, false, true, c.limit), polls + [true], c)
    ensures !n.dead ==> Counts(NodeSwept(n, false, false, c.limit), polls + [false], c)
    ensures Counts(n.(dead := false, miss := 0), polls + [true], c)
  {
    assert (polls + [false])[..|polls|] == polls;
  }

  lemma CycleCounts(st: State, c: Config, x: Input, i: nat, polls: seq<bool>)
    requires Fits(st, x) && i < |st.nodes| && Counts(st.nodes[i], polls, c)
    ensures Counts(Cycle(st, c, x).nodes[i], polls + PollsOf(st, c, x, i), c)
  {
    hide Sweep, DeadFrom, Counts, MarkAlive;
    var swept := Sweep(st, x, |st.nodes|, c.limit);
    SweepNodes(st, x, |st.nodes|, c.limit);
    var first := if Swept(st, x, i) then [x.answers[i]] else [];
    CountsStep(st.nodes[i], polls, c);
    assert polls + [] == polls;
    assert Counts(swept.nodes[i], polls + first, c);
    CountsStep(swept.nodes[i], polls + first, c);
    var p := Probed(swept, c);
    if p == Some(i) && x.probeAnswer {
      assert polls + first + [true] == polls + PollsOf(st, c, x, i);
    } else {
      assert polls + first == polls + PollsOf(st, c, x, i);
    }
  }

  ghost predicate AllFit(st: State, xs: seq<Input>) {
    forall k :: 0 <= k < |xs| ==> Fits(st, xs[k])
  }

  ghost function After(st: State, c: Config, xs: seq<Input>): (res: State)
    requires AllFit(st, xs)
    ensures |res.nodes| == |st.nodes|
    decreases |xs|
  {
    if xs == [] then st else Cycle(After(st, c, xs[..|xs| - 1]), c, xs[|xs| - 1])
  }

  /** The counted polls of node i over a run of cycles. */
  ghost function History(st: State, c: Config, xs: seq<Input>, i: nat): seq<bool>
    requires AllFit(st, xs) && i < |st.nodes|
    decreases |xs|
  {
    if xs == [] then []
    else History(st, c, xs[..|xs| - 1], i) + PollsOf(After(st, c, xs[..|xs| - 1]), c, xs[|xs| - 1], i)
  }

  ghost predicate Fresh(st: State) {
    && DistinctAddrs(st.nodes)
    && forall i :: 0 <= i < |st.nodes| ==>
         !st.nodes[i].dead && st.nodes[i].miss == 0 && Mirrors(st.roster, st.nodes[i])
  }

  /** Over any run from a fresh table, with a fixed roster: every node is dead exactly when its
      last `Limit` counted polls went unanswered, it is never polled past that, and the roster
      agrees with the table after every cycle. */
  lemma {:induction false} DeadExactly(st: State, c: Config, xs: seq<Input>, i: nat)
    requires Fresh(st) && AllFit(st, xs) && i < |st.nodes|
    ensures Agree(After(st, c, xs), c)
    ensures After(st, c, xs).nodes[i].dead <==> Trailing(History(st, c, xs, i)) == Limit(c)
    ensures Trailing(History(st, c, xs, i)) <= Limit(c)
  {
    FreshCounts(st, c, i);
    RunCounts(st, c, xs, i);
  }

  lemma FreshCounts(st: State, c: Config, i: nat)
    requires Fresh(st) && i < |st.nodes|
    ensures Agree(st, c) && Counts(st.nodes[i], [], c)
  {
  }

  lemma {:induction false} RunCounts(st: State, c: Config, xs: seq<Input>, i: nat)
    requires Agree(st, c) && AllFit(st, xs) && i < |st.nodes| && Counts(st.nodes[i], [], c)
    ensures Agree(After(st, c, xs), c)
    ensures Counts(After(st, c, xs).nodes[i], History(st, c, xs, i), c)
    decreases |xs|
  {
    hide Agree, Counts, Cycle, PollsOf;
    if xs != [] {
      var init, x := xs[..|xs| - 1], xs[|xs| - 1];
      RunCounts(st, c, init, i);
      CycleAgrees(After(st, c, init), c, x);
      CycleCounts(After(st, c, init), c, x, i, History(st, c, init, i));
    }
  }

  // ---- Where a run starts -------------------------------------------------------------

  ghost predicate DistinctSlaves(roster: seq<Slave>) {
    forall i, j :: 0 <= i < j < |roster| ==> roster[i].addr != roster[j].addr
  }

  function BuiltState(roster: seq<Slave>, tick: nat, cursor: nat): State {
    State(Build<nat>(roster), roster, tick, cursor)
  }

  ghost predicate Clean(s: Slave) { s.misses == 0 && s.state != Dead }

  lemma {:induction false} SlaveOfEntry(roster: seq<Slave>, j: nat, i: nat)
    requires DistinctSlaves(roster) && i <= j < |roster|
    ensures SlaveFrom(roster, roster[j].addr, i) == j
    decreases j - i
  {
    if i < j {
      SlaveOfEntry(roster, j, i + 1);
    }
  }

  lemma {:induction false} BuiltAddrs(roster: seq<Slave>)
    requires DistinctSlaves(roster)
    ensures DistinctAddrs(Build<nat>(roster))
    ensures forall n :: n in Build<nat>(roster) ==> exists j :: 0 <= j < |roster| && n == FreshNode<nat>(roster[j])
    ensures forall j :: 0 <= j < |roster| ==> FreshNode<nat>(roster[j]) in Build<nat>(roster)
  {
    hide Build;
    var nodes := Build<nat>(roster);
    BuildLaw<nat>(roster);
    FreshNodesCount(roster);
    forall i, j | 0 <= i < j < |nodes|
      ensures nodes[i].addr != nodes[j].addr
    {
      var a, b := nodes[i], nodes[j];
      if a.addr == b.addr {
        var k := FreshOfSlave(roster, a);
        var m := FreshOfSlave(roster, b);
        assert a == b;
        TwiceInMultiset(nodes, i, j);
      }
    }
    forall n | n in nodes
      ensures exists j :: 0 <= j < |roster| && n == FreshNode<nat>(roster[j])
    {
      var j := FreshOfSlave(roster, n);
    }
    forall j | 0 <= j < |roster|
      ensures FreshNode<nat>(roster[j]) in nodes
    {
      assert FreshNodes<nat>(roster)[j] in multiset(FreshNodes<nat>(roster));
      assert FreshNodes<nat>(roster)[j] in multiset(nodes);
    }
  }

  lemma FreshOfSlave(roster: seq<Slave>, n: Node<nat>) returns (j: nat)
    requires n in Build<nat>(roster)
    ensures j < |roster| && n == FreshNode<nat>(roster[j])
  {
    hide Build;
    var all := FreshNodes<nat>(roster);
    BuildLaw<nat>(roster);
    assert n in multiset(Build<nat>(roster));
    assert n in multiset(all);
    j :| 0 <= j < |all| && all[j] == n;
  }

  lemma {:induction false} FreshNodesCount(roster: seq<Slave>)
    requires DistinctSlaves(roster)
    ensures forall n :: multiset(FreshNodes<nat>(roster))[n] <= 1
  {
    if roster != [] {
      var init, last := roster[..|roster| - 1], FreshNode<nat>(roster[|roster| - 1]);
      FreshNodesCount(init);
      assert FreshNodes<nat>(roster) == FreshNodes<nat>(init) + [last];
      assert last !in FreshNodes<nat>(init);
    }
  }

  lemma TwiceInMultiset(nodes: seq<Node<nat>>, i: nat, j: nat)
    requires i < j < |nodes| && nodes[i] == nodes[j]
    ensures multiset(nodes)[nodes[i]] >= 2
  {
    assert nodes == nodes[..j] + [nodes[j]] + nodes[j + 1..];
    assert nodes[..j][i] == nodes[i];
  }

  lemma EntryMirrors(roster: seq<Slave>, j: nat)
    requires DistinctSlaves(roster) && j < |roster|
    ensures SlaveOf(roster, roster[j].addr) == j
    ensures Mirrors(roster, FreshNode(roster[j])) <==> Clean(roster[j])
  {
    hide SlaveFrom;
    SlaveOfEntry(roster, j, 0);
  }

  lemma NodeSource(roster: seq<Slave>, i: nat) returns (j: nat)
    requires DistinctSlaves(roster) && i < |Build<nat>(roster)|
    ensures j < |roster| && Build<nat>(roster)[i] == FreshNode<nat>(roster[j])
  {
    hide Build;
    j := FreshOfSlave(roster, Build<nat>(roster)[i]);
  }

  lemma EntryNode(roster: seq<Slave>, j: nat) returns (i: nat)
    requires DistinctSlaves(roster) && j < |roster|
    ensures i < |Build<nat>(roster)| && Build<nat>(roster)[i] == FreshNode<nat>(roster[j])
  {
    hide Build, DistinctSlaves;
    BuiltAddrs(roster);
    assert FreshNode<nat>(roster[j]) in Build<nat>(roster);
    i :| 0 <= i < |Build<nat>(roster)| && Build<nat>(roster)[i] == FreshNode<nat>(roster[j]);
  }

  lemma CleanIsFresh(roster: seq<Slave>, tick: nat, cursor: nat)
    requires DistinctSlaves(roster) && forall j :: 0 <= j < |roster| ==> Clean(roster[j])
    ensures Fresh(BuiltState(roster, tick, cursor))
  {
    hide Build, Mirrors, Clean, DistinctSlaves;
    var st := BuiltState(roster, tick, cursor);
    BuiltAddrs(roster);
    forall i | 0 <= i < |st.nodes|
      ensures !st.nodes[i].dead && st.nodes[i].miss == 0 && Mirrors(roster, st.nodes[i])
    {
      var j := NodeSource(roster, i);
      EntryMirrors(roster, j);
    }
  }

  /** A table built from a roster agrees with it, counts and all, exactly when no entry has misses or
      is dead: a rebuild at run time resets the table but not the roster. */
  lemma BuiltAgrees(roster: seq<Slave>, tick: nat, cursor: nat, c: Config)
    requires DistinctSlaves(roster)
    ensures Agree(BuiltState(roster, tick, cursor), c) <==> forall j :: 0 <= j < |roster| ==> Clean(roster[j])
    ensures Agree(BuiltState(roster, tick, cursor), c) ==> Fresh(BuiltState(roster, tick, cursor))
  {
    var st := BuiltState(roster, tick, cursor);
    hide Build, Mirrors, Clean, DistinctSlaves;
    if Agree(st, c) {
      forall j | 0 <= j < |roster|
        ensures Clean(roster[j])
      {
        var i := EntryNode(roster, j);
        assert Mirrors(roster, st.nodes[i]);
        EntryMirrors(roster, j);
      }
    }
    if forall j :: 0 <= j < |roster| ==> Clean(roster[j]) {
      CleanIsFresh(roster, tick, cursor);
    }
  }

  // ---- How soon a dead node is probed -------------------------------------------------

  /** How far the probe cursor is from node j, going round. A rebuild that shrinks the table may have
      left the cursor past its end. */
  function Distance(st: State, j: nat): nat
    requires j < |st.nodes|
  {
    var n, at := |st.nodes|, st.cursor % |st.nodes|;
    if j >= at then j - at else j + n - at
  }

  /** The cycles until the next probe is due. A lower interval may have left the tick past it. */
  function Due(st: State, c: Config): (r: nat)
    ensures r >= 1
  {
    if st.tick + 1 < c.div then c.div - st.tick else 1
  }

  /** An upper bound on the cycles until dead node j is probed. */
  function Wait(st: State, c: Config, j: nat): int
    requires j < |st.nodes|
  {
    Distance(st, j) * c.div + Due(st, c)
  }

  function ProbedIn(st: State, c: Config, x: Input): Option<nat>
    requires Fits(st, x)
  {
    Probed(Sweep(st, x, |st.nodes|, c.limit), c)
  }

  lemma WrapIs(n: nat, cursor: nat, k: nat)
    requires k < n
    ensures var at := cursor % n; (cursor + k) % n == if at + k < n then at + k else at + k - n
  {
    var q, at := cursor / n, cursor % n;
    assert cursor == q * n + at;
    if at + k < n {
      DivisionIs(cursor + k, n, q, at + k);
    } else {
      assert (q + 1) * n == q * n + n;
      DivisionIs(cursor + k, n, q + 1, at + k - n);
    }
  }

  lemma SmallRemainder(x: nat, n: nat)
    requires x < n
    ensures x % n == x
  {
  }

  lemma ProbeShrinks(st: State, c: Config, answer: bool, j: nat)
    requires j < |st.nodes| && st.nodes[j].dead && c.div >= 1
    ensures var st' := Probe(st, c, answer);
      Probed(st, c) != Some(j) ==> st'.nodes[j].dead && Wait(st', c, j) < Wait(st, c, j)
  {
    hide DeadFrom, DeadAt, MarkAlive, Distance;
    var st', n := Probe(st, c, answer), |st.nodes|;
    if ProbeDue(st, c) {
      var k, d := DeadFrom(st.nodes, st.cursor, 0), Distance(st, j);
      TurnReached(st, j);
      if k < d {
        var i := (st.cursor + k) % n;
        TurnPassed(st, k, j, i);
        SameDistance(st.(cursor := (i + 1) % n), st', j);
        WaitArithmetic(d, k, c.div, Due(st, c), Due(st', c));
      }
    } else {
      SameDistance(st, st', j);
    }
  }

  lemma SameDistance(a: State, b: State, j: nat)
    requires |a.nodes| == |b.nodes| && a.cursor == b.cursor && j < |a.nodes|
    ensures Distance(a, j) == Distance(b, j)
  {
  }

  /** A cycle that does not probe dead node j brings it closer to its turn, and leaves it dead. */
  lemma WaitShrinks(st: State, c: Config, x: Input, j: nat)
    requires Fits(st, x) && j < |st.nodes| && st.nodes[j].dead && c.div >= 1
    ensures var st' := Cycle(st, c, x);
      ProbedIn(st, c, x) != Some(j) ==> st'.nodes[j].dead && Wait(st', c, j) < Wait(st, c, j)
  {
    hide Sweep, Probe, Distance, Probed;
    var swept := Sweep(st, x, |st.nodes|, c.limit);
    SweepNodes(st, x, |st.nodes|, c.limit);
    SameDistance(st, swept, j);
    ProbeShrinks(swept, c, x.probeAnswer, j);
  }

  /** After a probe at offset k short of node j, the cursor is that much nearer. */
  lemma TurnPassed(st: State, k: nat, j: nat, i: nat)
    requires j < |st.nodes| && k < Distance(st, j) && i == (st.cursor + k) % |st.nodes|
    ensures Distance(st.(cursor := (i + 1) % |st.nodes|), j) == Distance(st, j) - k - 1
    ensures i != j
  {
    var n := |st.nodes|;
    WrapIs(n, st.cursor, k);
    if i + 1 < n {
      SmallRemainder(i + 1, n);
      SmallRemainder((i + 1) % n, n);
    } else {
      DivisionIs(i + 1, n, 1, 0);
      SmallRemainder(0, n);
    }
  }

  lemma TurnReached(st: State, j: nat)
    requires j < |st.nodes| && st.nodes[j].dead
    ensures 0 <= DeadFrom(st.nodes, st.cursor, 0) <= Distance(st, j)
    ensures (st.cursor + Distance(st, j)) % |st.nodes| == j
  {
    var d := Distance(st, j);
    WrapIs(|st.nodes|, st.cursor, d);
    assert DeadAt(st.nodes, st.cursor, d);
  }

  lemma WaitArithmetic(d: nat, k: nat, div: nat, due: nat, next: nat)
    requires k < d && due >= 1 && next <= div
    ensures (d - k - 1) * div + next < d * div + due
  {
    assert d * div == (d - k - 1) * div + (k + 1) * div;
    assert (k + 1) * div == k * div + div;
    assert k * div >= 0;
  }

  /** A dead node is probed within as many cycles as there are nodes times the probe interval, from
      wherever cursor and tick were left. */
  lemma ProbedWithin(st: State, c: Config, xs: seq<Input>, j: nat)
    requires AllFit(st, xs) && j < |st.nodes| && st.nodes[j].dead && c.div >= 1
    requires |xs| >= |st.nodes| * c.div
    ensures exists k: nat :: k < |xs| && ProbedIn(After(st, c, xs[..k]), c, xs[k]) == Some(j)
  {
    WaitBound(Distance(st, j), |st.nodes|, c.div);
    ProbedEventually(st, c, xs, j, 0);
  }

  lemma WaitBound(d: nat, n: nat, div: nat)
    requires d < n
    ensures d * div + div <= n * div
  {
    var m: nat := n - d - 1;
    assert n * div == (d + 1 + m) * div == d * div + div + m * div;
    assert m * div >= 0;
  }

  lemma {:induction false} ProbedEventually(st: State, c: Config, xs: seq<Input>, j: nat, k: nat)
    requires AllFit(st, xs) && j < |st.nodes| && k <= |xs| && c.div >= 1
    requires AllFit(st, xs[..k])
    requires var now := After(st, c, xs[..k]); now.nodes[j].dead && Wait(now, c, j) <= |xs| - k
    ensures exists m: nat :: m < |xs| && AllFit(st, xs[..m]) && ProbedIn(After(st, c, xs[..m]), c, xs[m]) == Some(j)
    decreases |xs| - k
  {
    hide Cycle, ProbedIn, Distance, Due;
    var now := After(st, c, xs[..k]);
    WaitPositive(now, c, j);
    WaitShrinks(now, c, xs[k], j);
    assert xs[..k + 1][..k] == xs[..k];
    if ProbedIn(now, c, xs[k]) != Some(j) {
      ProbedEventually(st, c, xs, j, k + 1);
    }
  }

  lemma WaitPositive(st: State, c: Config, j: nat)
    requires j < |st.nodes|
    ensures Wait(st, c, j) >= 1
  {
    assert Distance(st, j) * c.div >= 0;
  }

  // ---- And how seldom -----------------------------------------------------------------

  lemma ProbeTick(st: State, c: Config, x: Input)
    requires Fits(st, x)
    ensures var q := Cycle(st, c, x);
      && (ProbedIn(st, c, x).Some? ==> c.div >= 1 && st.tick + 1 >= c.div && q.tick == 0)
      && q.tick <= st.tick + 1
  {
    hide Sweep, DeadFrom, MarkAlive;
    SweepNodes(st, x, |st.nodes|, c.limit);
  }

  lemma {:induction false} TickGrows(st: State, c: Config, xs: seq<Input>, a: nat, b: nat)
    requires AllFit(st, xs) && a <= b <= |xs| && AllFit(st, xs[..a]) && AllFit(st, xs[..b])
    ensures After(st, c, xs[..b]).tick <= After(st, c, xs[..a]).tick + (b - a)
    decreases b
  {
    hide Cycle;
    if a < b {
      assert xs[..b][..b - 1] == xs[..b - 1];
      TickGrows(st, c, xs, a, b - 1);
      ProbeTick(After(st, c, xs[..b - 1]), c, xs[b - 1]);
    }
  }

  /** Between two probes of dead nodes lie at least as many cycles as the interval, and with an interval
      of 0 there is none: so the live cycle keeps its pace. */
  lemma ProbesApart(st: State, c: Config, xs: seq<Input>, a: nat, b: nat)
    requires AllFit(st, xs) && a < b < |xs| && AllFit(st, xs[..a]) && AllFit(st, xs[..b])
    requires ProbedIn(After(st, c, xs[..a]), c, xs[a]).Some? && ProbedIn(After(st, c, xs[..b]), c, xs[b]).Some?
    ensures c.div >= 1 && b - a >= c.div
  {
    hide Cycle, ProbedIn;
    assert xs[..a + 1][..a] == xs[..a];
    ProbeTick(After(st, c, xs[..a]), c, xs[a]);
    ProbeTick(After(st, c, xs[..b]), c, xs[b]);
    TickGrows(st, c, xs, a + 1, b);
  }

  /** A cycle polls a node only if it is live and was not sent data in that cycle, and changes no node
      that it neither polled nor probed. */
  lemma OnlyPolled(st: State, c: Config, x: Input, i: nat)
    requires Fits(st, x) && i < |st.nodes| && (st.nodes[i].dead || x.marked[i])
    ensures ProbedIn(st, c, x) != Some(i) ==> Cycle(st, c, x).nodes[i] == st.nodes[i]
    ensures !st.nodes[i].dead ==> Cycle(st, c, x).nodes[i] == st.nodes[i]
  {
    hide Sweep, DeadFrom, MarkAlive;
    SweepNodes(st, x, |st.nodes|, c.limit);
  }
}
