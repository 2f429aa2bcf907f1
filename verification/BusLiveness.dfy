/** Liveness of the polled nodes: the sweep of live nodes, the slow probe of dead ones, and the
    roster state the host sees. */
module BusLiveness {
  import opened Bytes
  import opened BusTable

  datatype State = State(nodes: seq<Node<nat>>, roster: seq<Slave>, tick: nat, cursor: nat)

  /** What one cycle meets: which nodes were sent data and so are not polled, which would answer the
      sweep, and whether the probed dead node answers. */
  datatype Input = Input(marked: seq<bool>, answers: seq<bool>, probeAnswer: bool)

  /** Poll settings: the miss limit and how many cycles lie between two probes (0: none). */
  datatype Config = Config(limit: byte, div: nat)

  function SlaveFrom(roster: seq<Slave>, addr: byte, i: nat): (r: int)
    requires i <= |roster|
    ensures -1 <= r < |roster|
    ensures r >= 0 ==> i <= r && roster[r].addr == addr && forall k :: i <= k < r ==> roster[k].addr != addr
    ensures r < 0 ==> forall k :: i <= k < |roster| ==> roster[k].addr != addr
    decreases |roster| - i
  {
    if i == |roster| then -1 else if roster[i].addr == addr then i else SlaveFrom(roster, addr, i + 1)
  }

  function SlaveOf(roster: seq<Slave>, addr: byte): int { SlaveFrom(roster, addr, 0) }

  function MarkAlive(roster: seq<Slave>, addr: byte): (res: seq<Slave>)
    ensures |res| == |roster|
  {
    var j := SlaveOf(roster, addr);
    if j < 0 then roster else roster[j := roster[j].(misses := 0, state := Alive)]
  }

  function Missed(s: Slave, limit: byte): Slave {
    var m := if s.misses < 0xFF then s.misses + 1 else s.misses;
    s.(misses := m, state := if s.state != Dead && m >= limit then Dead else s.state)
  }

  function MarkMiss(roster: seq<Slave>, addr: byte, limit: byte): (res: seq<Slave>)
    ensures |res| == |roster|
  {
    var j := SlaveOf(roster, addr);
    if j < 0 then roster else roster[j := Missed(roster[j], limit)]
  }

  function NodeMissed(n: Node<nat>, limit: byte): Node<nat> {
    if n.miss < 0xFF then n.(miss := n.miss + 1, dead := n.dead || n.miss + 1 >= limit) else n
  }

  predicate Fits(st: State, x: Input) {
    |x.marked| == |x.answers| == |st.nodes|
  }

  predicate Swept(st: State, x: Input, i: nat)
    requires Fits(st, x) && i < |st.nodes|
  {
    !st.nodes[i].dead && !x.marked[i]
  }

  function SweepOne(st: State, x: Input, i: nat, limit: byte): (res: State)
    requires Fits(st, x) && i < |st.nodes|
    ensures |res.nodes| == |st.nodes|
  {
    var n := st.nodes[i];
    if !Swept(st, x, i) then st
    else if x.answers[i] then st.(nodes := st.nodes[i := n.(miss := 0)], roster := MarkAlive(st.roster, n.addr))
    else st.(nodes := st.nodes[i := NodeMissed(n, limit)], roster := MarkMiss(st.roster, n.addr, limit))
  }

  function Sweep(st: State, x: Input, n: nat, limit: byte): (res: State)
    requires Fits(st, x) && n <= |st.nodes|
    ensures |res.nodes| == |st.nodes|
  {
    if n == 0 then st else SweepOne(Sweep(st, x, n - 1, limit), x, n - 1, limit)
  }

  predicate DeadAt(nodes: seq<Node<nat>>, cursor: nat, k: nat)
    requires nodes != []
  {
    nodes[(cursor + k) % |nodes|].dead
  }

  /** The first dead node at or after the cursor, as an offset from it. */
  function DeadFrom(nodes: seq<Node<nat>>, cursor: nat, k: nat): (r: int)
    requires k <= |nodes|
    ensures -1 <= r < |nodes|
    ensures r >= 0 ==> k <= r && DeadAt(nodes, cursor, r)
    ensures forall m: nat :: k <= m < (if r < 0 then |nodes| else r) ==> !DeadAt(nodes, cursor, m)
    decreases |nodes| - k
  {
    if k == |nodes| then -1 else if DeadAt(nodes, cursor, k) then k else DeadFrom(nodes, cursor, k + 1)
  }

  predicate ProbeDue(st: State, c: Config) { c.div != 0 && st.tick + 1 >= c.div }

  /** The node probed after the sweep, if any. */
  function Probed(st: State, c: Config): (r: Option<nat>)
    ensures r.Some? ==> r.value < |st.nodes| && st.nodes[r.value].dead
  {
    if !ProbeDue(st, c) then None
    else
      var k := DeadFrom(st.nodes, st.cursor, 0);
      if k < 0 then None else Some((st.cursor + k) % |st.nodes|)
  }

  function Probe(st: State, c: Config, answer: bool): (res: State)
    ensures |res.nodes| == |st.nodes|
  {
    var ticked := if c.div == 0 then st else st.(tick := if ProbeDue(st, c) then 0 else st.tick + 1);
    var p := Probed(st, c);
    if p.None? then ticked
    else
      var i, n := p.value, st.nodes[p.value];
      var moved := ticked.(cursor := (i + 1) % |st.nodes|);
      if answer then
        moved.(nodes := st.nodes[i := n.(dead := false, miss := 0)], roster := MarkAlive(st.roster, n.addr))
      else moved
  }

  datatype Option<T> = None | Some(value: T)

  /** The polling part of one bus cycle. */
  function Cycle(st: State, c: Config, x: Input): (res: State)
    requires Fits(st, x)
    ensures |res.nodes| == |st.nodes|
  {
    Probe(Sweep(st, x, |st.nodes|, c.limit), c, x.probeAnswer)
  }

  lemma ProbeIs(st: State, c: Config, answer: bool)
    ensures c.div == 0 ==> Probe(st, c, answer) == st
    ensures c.div != 0 && st.tick + 1 < c.div ==> Probe(st, c, answer) == st.(tick := st.tick + 1)
    ensures ProbeDue(st, c) ==>
      var k := DeadFrom(st.nodes, st.cursor, 0);
      if k < 0 then Probe(st, c, answer) == st.(tick := 0)
      else Probe(st, c, answer) == ProbedAt(st, (st.cursor + k) % |st.nodes|, answer)
  {
    hide DeadFrom, MarkAlive;
  }

  function ProbedAt(st: State, i: nat, answer: bool): State
    requires i < |st.nodes|
  {
    var n, moved := st.nodes[i], st.(tick := 0, cursor := (i + 1) % |st.nodes|);
    if answer then moved.(nodes := st.nodes[i := n.(dead := false, miss := 0)], roster := MarkAlive(st.roster, n.addr))
    else moved
  }

  // ---- The same, updated in place -----------------------------------------------------

  class Poller {
    const nodes: array<Node<nat>>
    const roster: array<Slave>
    var tick: nat
    var cursor: nat

    ghost function Abstract(): State
      reads this, nodes, roster
    {
      State(nodes[..], roster[..], tick, cursor)
    }

    method Find(addr: byte) returns (j: int)
      ensures j == SlaveOf(roster[..], addr)
    {
      var i := 0;
      while i < roster.Length
        invariant i <= roster.Length
        invariant SlaveFrom(roster[..], addr, i) == SlaveOf(roster[..], addr)
      {
        if roster[i].addr == addr {
          return i;
        }
        i := i + 1;
      }
      j := -1;
    }

    method Alive(addr: byte)
      modifies roster
      ensures roster[..] == MarkAlive(old(roster[..]), addr)
    {
      var j := Find(addr);
      if j >= 0 {
        roster[j] := roster[j].(misses := 0, state := BusTable.Alive);
      }
    }

    method Miss(addr: byte, limit: byte)
      modifies roster
      ensures roster[..] == MarkMiss(old(roster[..]), addr, limit)
    {
      var j := Find(addr);
      if j >= 0 {
        var s := roster[j];
        if s.misses < 0xFF {
          s := s.(misses := s.misses + 1);
        }
        if s.state != Dead && s.misses >= limit {
          s := s.(state := Dead);
        }
        roster[j] := s;
      }
    }

    method RunCycle(c: Config, x: Input)
      requires |x.marked| == |x.answers| == nodes.Length
      modifies this, nodes, roster
      ensures Abstract() == Cycle(old(Abstract()), c, x)
    {
      ghost var start := Abstract();
      for i := 0 to nodes.Length
        invariant Abstract() == Sweep(start, x, i, c.limit)
      {
        SweepNode(i, c, x);
      }
      ProbeDead(c, x.probeAnswer);
    }

    method SweepNode(i: nat, c: Config, x: Input)
      requires |x.marked| == |x.answers| == nodes.Length && i < nodes.Length
      modifies nodes, roster
      ensures Abstract() == SweepOne(old(Abstract()), x, i, c.limit)
    {
      var n := nodes[i];
      if n.dead || x.marked[i] {
        return;
      }
      if !x.answers[i] {
        Miss(n.addr, c.limit);
        if n.miss < 0xFF {
          nodes[i] := n.(miss := n.miss + 1);
          if n.miss + 1 >= c.limit {
            nodes[i] := nodes[i].(dead := true);
          }
        }
      } else {
        Alive(n.addr);
        nodes[i] := n.(miss := 0);
      }
    }

    method ProbeDead(c: Config, answer: bool)
      modifies this, nodes, roster
      ensures Abstract() == Probe(old(Abstract()), c, answer)
    {
      ghost var st := Abstract();
      ProbeIs(st, c, answer);
      hide Probe, DeadAt, DeadFrom, MarkAlive;
      if c.div == 0 {
        return;
      }
      tick := tick + 1;
      if tick < c.div {
        return;
      }
      tick := 0;
      var k := FirstDead();
      if k >= 0 {
        ProbeNode((cursor + k) % nodes.Length, answer);
      }
    }

    method ProbeNode(i: nat, answer: bool)
      requires i < nodes.Length && tick == 0
      modifies this`cursor, nodes, roster
      ensures Abstract() == ProbedAt(old(Abstract()), i, answer)
    {
      hide MarkAlive;
      cursor := (i + 1) % nodes.Length;
      if answer {
        nodes[i] := nodes[i].(dead := false, miss := 0);
        Alive(nodes[i].addr);
      }
    }

    method FirstDead() returns (k: int)
      ensures k == DeadFrom(nodes[..], cursor, 0)
    {
      k := 0;
      while k < nodes.Length
        invariant 0 <= k <= nodes.Length
        invariant DeadFrom(nodes[..], cursor, k) == DeadFrom(nodes[..], cursor, 0)
      {
        if nodes[(cursor + k) % nodes.Length].dead {
          return;
        }
        k := k + 1;
      }
      k := -1;
    }
  }
}
