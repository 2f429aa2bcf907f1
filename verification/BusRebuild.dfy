/** After a rebuild of the node table at run time: the table starts afresh while the roster keeps its
    states and miss counts. When do the two call a slave dead differently, and for how long? */
module BusRebuild {
  import opened Bytes
  import opened BusTable
  import opened BusLiveness
  import opened BusLivenessLaws

  // ---- One entry of the roster through a cycle ----------------------------------------

  ghost predicate Known(roster: seq<Slave>, addr: byte) { SlaveOf(roster, addr) >= 0 }

  function Entry(roster: seq<Slave>, addr: byte): Slave
    requires SlaveOf(roster, addr) >= 0
  {
    roster[SlaveOf(roster, addr)]
  }

  function Answered(s: Slave): Slave { s.(misses := 0, state := Alive) }

  lemma MarkEntry(roster: seq<Slave>, at: byte, limit: byte, addr: byte)
    requires Known(roster, addr)
    ensures Known(MarkAlive(roster, at), addr) && Known(MarkMiss(roster, at, limit), addr)
    ensures Entry(MarkAlive(roster, at), addr) ==
      if at == addr then Answered(Entry(roster, addr)) else Entry(roster, addr)
    ensures Entry(MarkMiss(roster, at, limit), addr) ==
      if at == addr then Missed(Entry(roster, addr), limit) else Entry(roster, addr)
  {
    SlaveFromSame(roster, MarkAlive(roster, at), addr, 0);
    SlaveFromSame(roster, MarkMiss(roster, at, limit), addr, 0);
  }

  function EntrySwept(s: Slave, n: Node<nat>, marked: bool, answer: bool, limit: byte): Slave {
    if n.dead || marked then s else if answer then Answered(s) else Missed(s, limit)
  }

  lemma SweepOneEntry(st: State, x: Input, k: nat, limit: byte, addr: byte)
    requires Fits(st, x) && k < |st.nodes| && Known(st.roster, addr)
    ensures var q, n := SweepOne(st, x, k, limit), st.nodes[k];
      && Known(q.roster, addr)
      && Entry(q.roster, addr) ==
         if n.addr == addr then EntrySwept(Entry(st.roster, addr), n, x.marked[k], x.answers[k], limit)
         else Entry(st.roster, addr)
  {
    hide MarkAlive, MarkMiss, SlaveFrom, Entry, Missed;
    MarkEntry(st.roster, st.nodes[k].addr, limit, addr);
  }

  /** The sweep changes the entry of node i once, when it comes to that node. */
  lemma {:induction false} SweepEntry(st: State, x: Input, m: nat, limit: byte, i: nat)
    requires Fits(st, x) && m <= |st.nodes| && i < |st.nodes| && DistinctAddrs(st.nodes)
    requires Known(st.roster, st.nodes[i].addr)
    ensures var q, addr, s := Sweep(st, x, m, limit), st.nodes[i].addr, Entry(st.roster, st.nodes[i].addr);
      && Known(q.roster, addr)
      && Entry(q.roster, addr) ==
         if m <= i then s else EntrySwept(s, st.nodes[i], x.marked[i], x.answers[i], limit)
    decreases m
  {
    hide SweepOne, SlaveFrom, Entry, EntrySwept, NodeSwept;
    if m > 0 {
      SweepEntry(st, x, m - 1, limit, i);
      SweepNodes(st, x, m - 1, limit);
      SweepOneEntry(Sweep(st, x, m - 1, limit), x, m - 1, limit, st.nodes[i].addr);
      assert m - 1 != i ==> st.nodes[m - 1].addr != st.nodes[i].addr;
    }
  }

  lemma ProbeEntry(st: State, c: Config, answer: bool, i: nat)
    requires i < |st.nodes| && DistinctAddrs(st.nodes) && Known(st.roster, st.nodes[i].addr)
    ensures var q, addr, s := Probe(st, c, answer), st.nodes[i].addr, Entry(st.roster, st.nodes[i].addr);
      && Known(q.roster, addr) && q.nodes[i].addr == addr
      && Entry(q.roster, addr) == (if Probed(st, c) == Some(i) && answer then Answered(s) else s)
      && q.nodes[i] ==
         if Probed(st, c) == Some(i) && answer then st.nodes[i].(dead := false, miss := 0) else st.nodes[i]
  {
    hide MarkAlive, DeadFrom, SlaveFrom, Entry;
    var p := Probed(st, c);
    if p.Some? {
      MarkEntry(st.roster, st.nodes[p.value].addr, 0, st.nodes[i].addr);
      assert p.value != i ==> st.nodes[p.value].addr != st.nodes[i].addr;
    }
  }

  // ---- What a node and its entry come to ----------------------------------------------

  /** Some counted poll was answered. */
  predicate Heard(polls: seq<bool>) { true in polls }

  function Capped(m: nat): nat { if m <= 0xFF then m else 0xFF }

  /** A node and its entry after the polls since the rebuild, in which the entry was s0: in step once
      a poll was answered; before that each has counted the misses from where it began. */
  ghost predicate Lagging(n: Node<nat>, s: Slave, s0: Slave, polls: seq<bool>, c: Config) {
    && Counts(n, polls, c)
    && if Heard(polls) then s.misses == n.miss && (s.state == Dead <==> n.dead)
       else
         && Trailing(polls) == |polls| && s.misses == Capped(s0.misses + |polls|)
         && (s.state == Dead <==> s0.state == Dead || (polls != [] && s0.misses + |polls| >= Limit(c)))
  }

  lemma HeardMore(polls: seq<bool>, answer: bool)
    ensures Heard(polls + [answer]) <==> Heard(polls) || answer
    ensures Trailing(polls + [answer]) == if answer then 0 else Trailing(polls) + 1
  {
    var more := polls + [answer];
    assert more[..|polls|] == polls && more[|polls|] == answer;
    if answer {
      assert more[|polls|] in more;
    }
  }

  lemma MissLags(n: Node<nat>, s: Slave, s0: Slave, polls: seq<bool>, c: Config)
    requires Lagging(n, s, s0, polls, c) && !n.dead
    ensures Lagging(NodeMissed(n, c.limit), Missed(s, c.limit), s0, polls + [false], c)
  {
    HeardMore(polls, false);
    hide Heard, Trailing;
  }

  lemma AnswerLags(n: Node<nat>, s: Slave, s0: Slave, polls: seq<bool>, c: Config)
    requires Lagging(n, s, s0, polls, c)
    ensures Lagging(n.(dead := false, miss := 0), Answered(s), s0, polls + [true], c)
  {
    HeardMore(polls, true);
    hide Heard, Trailing;
  }

  lemma SweptLags(n: Node<nat>, s: Slave, s0: Slave, polls: seq<bool>, c: Config, marked: bool, answer: bool)
    requires Lagging(n, s, s0, polls, c)
    ensures Lagging(NodeSwept(n, marked, answer, c.limit), EntrySwept(s, n, marked, answer, c.limit), s0,
                    polls + (if n.dead || marked then [] else [answer]), c)
  {
    assert polls + [] == polls;
    assert !n.dead ==> n.(miss := 0) == n.(dead := false, miss := 0);
    hide Lagging, NodeMissed, Missed;
    if !n.dead && !marked {
      if answer {
        AnswerLags(n, s, s0, polls, c);
      } else {
        MissLags(n, s, s0, polls, c);
      }
    }
  }

  ghost predicate NodeLags(st: State, s0: Slave, polls: seq<bool>, c: Config, i: nat)
    requires i < |st.nodes|
  {
    && DistinctAddrs(st.nodes) && Known(st.roster, st.nodes[i].addr)
    && Lagging(st.nodes[i], Entry(st.roster, st.nodes[i].addr), s0, polls, c)
  }

  lemma {:induction false} AddrsStay(st: State, c: Config, x: Input)
    requires Fits(st, x)
    ensures var q := Cycle(st, c, x);
      forall k :: 0 <= k < |st.nodes| ==> q.nodes[k].addr == st.nodes[k].addr
    ensures var w := Sweep(st, x, |st.nodes|, c.limit);
      forall k :: 0 <= k < |st.nodes| ==> w.nodes[k].addr == st.nodes[k].addr
  {
    hide Sweep, DeadFrom, MarkAlive;
    SweepNodes(st, x, |st.nodes|, c.limit);
  }

  lemma SweepLags(st: State, c: Config, x: Input, i: nat, s0: Slave, polls: seq<bool>)
    requires Fits(st, x) && i < |st.nodes| && NodeLags(st, s0, polls, c, i)
    ensures NodeLags(Sweep(st, x, |st.nodes|, c.limit), s0,
                     polls + (if Swept(st, x, i) then [x.answers[i]] else []), c, i)
  {
    AddrsStay(st, c, x);
    SweepNodes(st, x, |st.nodes|, c.limit);
    SweepEntry(st, x, |st.nodes|, c.limit, i);
    hide Sweep, Lagging, SlaveFrom, Entry, NodeSwept, EntrySwept, Cycle;
    SweptLags(st.nodes[i], Entry(st.roster, st.nodes[i].addr), s0, polls, c, x.marked[i], x.answers[i]);
  }

  lemma ProbeLags(st: State, c: Config, answer: bool, i: nat, s0: Slave, polls: seq<bool>)
    requires i < |st.nodes| && NodeLags(st, s0, polls, c, i)
    ensures NodeLags(Probe(st, c, answer), s0,
                     polls + (if Probed(st, c) == Some(i) && answer then [true] else []), c, i)
  {
    ProbeAddrs(st, c, answer);
    ProbeEntry(st, c, answer, i);
    AnswerLags(st.nodes[i], Entry(st.roster, st.nodes[i].addr), s0, polls, c);
    hide Probe, Lagging, SlaveFrom, Entry, Probed;
    assert polls + [] == polls;
  }

  lemma ProbeAddrs(st: State, c: Config, answer: bool)
    ensures forall k :: 0 <= k < |st.nodes| ==> Probe(st, c, answer).nodes[k].addr == st.nodes[k].addr
  {
    hide DeadFrom, MarkAlive;
  }

  lemma CycleLags(st: State, c: Config, x: Input, i: nat, s0: Slave, polls: seq<bool>)
    requires Fits(st, x) && i < |st.nodes| && NodeLags(st, s0, polls, c, i)
    ensures NodeLags(Cycle(st, c, x), s0, polls + PollsOf(st, c, x, i), c, i)
  {
    var w := Sweep(st, x, |st.nodes|, c.limit);
    var first := if Swept(st, x, i) then [x.answers[i]] else [];
    var last := if Probed(w, c) == Some(i) && x.probeAnswer then [true] else [];
    assert PollsOf(st, c, x, i) == first + last && polls + first + last == polls + (first + last);
    hide NodeLags, Sweep, Probe, Probed;
    SweepLags(st, c, x, i, s0, polls);
    ProbeLags(w, c, x.probeAnswer, i, s0, polls + first);
  }

  lemma {:induction false} RunLags(st: State, c: Config, xs: seq<Input>, i: nat, s0: Slave)
    requires AllFit(st, xs) && i < |st.nodes| && NodeLags(st, s0, [], c, i)
    ensures NodeLags(After(st, c, xs), s0, History(st, c, xs, i), c, i)
    decreases |xs|
  {
    hide NodeLags, Cycle, PollsOf;
    if xs != [] {
      var init, x := xs[..|xs| - 1], xs[|xs| - 1];
      RunLags(st, c, init, i, s0);
      CycleLags(After(st, c, init), c, x, i, s0, History(st, c, init, i));
    }
  }

  // ---- When the table and the roster call a slave dead differently --------------------

  /** The host's roster and the node table agree on whether node i is dead. */
  ghost predicate FlagsAgree(st: State, i: nat)
    requires i < |st.nodes|
  {
    var n := st.nodes[i];
    Known(st.roster, n.addr) && (Entry(st.roster, n.addr).state == Dead <==> n.dead)
  }

  lemma BuiltLags(roster: seq<Slave>, tick: nat, cursor: nat, c: Config, i: nat) returns (j: nat)
    requires DistinctSlaves(roster) && i < |roster|
    ensures j < |roster| && Build<nat>(roster)[i] == FreshNode<nat>(roster[j])
    ensures NodeLags(BuiltState(roster, tick, cursor), roster[j], [], c, i)
  {
    j := NodeSource(roster, i);
    BuiltAddrs(roster);
    hide Build;
    SlaveOfEntry(roster, j, 0);
  }

  /** Over any run after a rebuild: table and roster agree on a slave exactly from its first answered
      poll on, or once it has missed as many polls as the limit, or as long as the entry was neither
      dead nor brought to the limit by the misses it came with. */
  lemma AgreeAgain(roster: seq<Slave>, tick: nat, cursor: nat, c: Config, xs: seq<Input>, i: nat) returns (j: nat)
    requires DistinctSlaves(roster) && i < |roster| && AllFit(BuiltState(roster, tick, cursor), xs)
    ensures j < |roster| && roster[j].addr == Build<nat>(roster)[i].addr
    ensures var polls := History(BuiltState(roster, tick, cursor), c, xs, i);
      FlagsAgree(After(BuiltState(roster, tick, cursor), c, xs), i) <==>
        || Heard(polls) || |polls| >= Limit(c)
        || (roster[j].state != Dead && (polls == [] || roster[j].misses + |polls| < Limit(c)))
  {
    hide Build, After, History, SlaveFrom, Entry, Limit;
    j := BuiltLags(roster, tick, cursor, c, i);
    RunLags(BuiltState(roster, tick, cursor), c, xs, i, roster[j]);
  }

  // ---- Whether they ever do -----------------------------------------------------------

  function Nobody(n: nat): Input { Input(seq(n, _ => false), seq(n, _ => false), false) }

  /** Cycles in which every node is polled and none answers. */
  function Silence(n: nat, k: nat): (r: seq<Input>)
    ensures |r| == k
  {
    if k == 0 then [] else Silence(n, k - 1) + [Nobody(n)]
  }

  lemma {:induction false} SilenceFits(st: State, k: nat)
    ensures AllFit(st, Silence(|st.nodes|, k))
  {
    if k > 0 {
      SilenceFits(st, k - 1);
    }
  }

  lemma SilentCycle(st: State, c: Config, i: nat)
    requires i < |st.nodes|
    ensures Fits(st, Nobody(|st.nodes|))
    ensures PollsOf(st, c, Nobody(|st.nodes|), i) == if st.nodes[i].dead then [] else [false]
  {
    hide Sweep, Probed;
  }

  /** As long as the limit is not reached every silent cycle adds one unanswered poll. */
  lemma {:induction false} SilentPolls(st: State, c: Config, i: nat, s0: Slave, k: nat)
    requires i < |st.nodes| && NodeLags(st, s0, [], c, i) && k <= Limit(c)
    ensures AllFit(st, Silence(|st.nodes|, k))
    ensures var polls := History(st, c, Silence(|st.nodes|, k), i); |polls| == k && !Heard(polls)
  {
    SilenceFits(st, k);
    if k > 0 {
      var xs := Silence(|st.nodes|, k);
      var init := Silence(|st.nodes|, k - 1);
      assert xs[..|xs| - 1] == init && xs[|xs| - 1] == Nobody(|st.nodes|);
      SilentPolls(st, c, i, s0, k - 1);
      RunLags(st, c, init, i, s0);
      SilentCycle(After(st, c, init), c, i);
      HeardMore(History(st, c, init, i), false);
      hide Silence, Nobody, SlaveFrom, Entry, After, PollsOf;
    }
  }

  ghost predicate NeverApart(roster: seq<Slave>, tick: nat, cursor: nat, c: Config) {
    forall xs, i :: AllFit(BuiltState(roster, tick, cursor), xs) && 0 <= i < |roster| ==>
      FlagsAgree(After(BuiltState(roster, tick, cursor), c, xs), i)
  }

  /** Whatever the slaves do, an entry that comes into the rebuild like this stays in step. */
  ghost predicate Harmless(s: Slave, c: Config) { s.state != Dead && (Limit(c) == 1 || s.misses == 0) }

  lemma HarmlessAgrees(roster: seq<Slave>, tick: nat, cursor: nat, c: Config, xs: seq<Input>, i: nat)
    requires DistinctSlaves(roster) && i < |roster| && AllFit(BuiltState(roster, tick, cursor), xs)
    requires forall j :: 0 <= j < |roster| ==> Harmless(roster[j], c)
    ensures FlagsAgree(After(BuiltState(roster, tick, cursor), c, xs), i)
  {
    hide Build, After, History, FlagsAgree, Heard;
    var j := AgreeAgain(roster, tick, cursor, c, xs, i);
    assert Harmless(roster[j], c);
  }

  /** An entry that is not harmless has a run that sets table and roster apart. */
  lemma SomeRunApart(roster: seq<Slave>, tick: nat, cursor: nat, c: Config, j: nat) returns (xs: seq<Input>, i: nat)
    requires DistinctSlaves(roster) && j < |roster| && !Harmless(roster[j], c)
    ensures i < |roster| && AllFit(BuiltState(roster, tick, cursor), xs)
    ensures !FlagsAgree(After(BuiltState(roster, tick, cursor), c, xs), i)
  {
    hide Build, After, History, FlagsAgree, Heard, NodeLags;
    var st, s0, limit := BuiltState(roster, tick, cursor), roster[j], Limit(c);
    i := EntryNode(roster, j);
    var k := if s0.state == Dead then 0 else if s0.misses >= limit then 1 else limit - s0.misses;
    xs := Silence(|st.nodes|, k);
    var m := BuiltLags(roster, tick, cursor, c, i);
    assert m == j;
    SilentPolls(st, c, i, s0, k);
    var m' := AgreeAgain(roster, tick, cursor, c, xs, i);
    assert m' == j;
  }

  /** Table and roster agree on who is dead after every cycle of every run after a rebuild if and only
      if every entry is harmless: with a limit of 1 none may be dead, with a higher one none may have
      missed a poll either. */
  lemma NeverApartExactly(roster: seq<Slave>, tick: nat, cursor: nat, c: Config)
    requires DistinctSlaves(roster)
    ensures NeverApart(roster, tick, cursor, c) <==> forall j :: 0 <= j < |roster| ==> Harmless(roster[j], c)
  {
    hide Build, After, FlagsAgree, Harmless;
    if j :| 0 <= j < |roster| && !Harmless(roster[j], c) {
      var xs, i := SomeRunApart(roster, tick, cursor, c, j);
    } else {
      forall xs, i | AllFit(BuiltState(roster, tick, cursor), xs) && 0 <= i < |roster|
        ensures FlagsAgree(After(BuiltState(roster, tick, cursor), c, xs), i)
      {
        HarmlessAgrees(roster, tick, cursor, c, xs, i);
      }
    }
  }
}
