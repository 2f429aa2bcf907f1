/** The linked buffers refine the step machine: forgetting the message numbers turns each step of the
    engine into the change that one method of the pool makes. */
module BusRefine {
  import opened Bytes
  import opened BusTable
  import opened BusMachine
  import opened BusDispatch
  import opened BusPool

  // ---- Forgetting the message numbers -------------------------------------------------

  function Bufs(qs: seq<Queued>): seq<nat> { seq(|qs|, i requires 0 <= i < |qs| => qs[i].buf) }

  function Plain(n: Node<Queued>): Node<nat> {
    Node(n.addr, n.enabled, n.dead, n.miss, Bufs(n.list0), Bufs(n.list1))
  }

  function PlainTable(nodes: seq<Node<Queued>>): (r: seq<Node<nat>>)
    ensures |r| == |nodes|
  {
    seq(|nodes|, i requires 0 <= i < |nodes| => Plain(nodes[i]))
  }

  function Project(s: State): Pool { Pool(s.free, PlainTable(s.nodes), s.active) }

  lemma BufsConcat(a: seq<Queued>, b: seq<Queued>)
    ensures Bufs(a + b) == Bufs(a) + Bufs(b)
  {
  }

  lemma BufsFront(q: Queued, qs: seq<Queued>)
    ensures Bufs([q] + qs) == [q.buf] + Bufs(qs)
  {
  }

  lemma {:induction false} PlainIndex(nodes: seq<Node<Queued>>, addr: byte, i: nat)
    requires i <= |nodes|
    ensures IndexFrom(PlainTable(nodes), addr, i) == IndexFrom(nodes, addr, i)
    decreases |nodes| - i
  {
    if i < |nodes| {
      PlainIndex(nodes, addr, i + 1);
    }
  }

  lemma PlainUpdate(nodes: seq<Node<Queued>>, i: nat, n: Node<Queued>)
    requires i < |nodes|
    ensures PlainTable(nodes[i := n]) == PlainTable(nodes)[i := Plain(n)]
  {
    hide Plain;
  }

  lemma PlainList(n: Node<Queued>, which: bool, qs: seq<Queued>)
    ensures Plain(n.WithList(which, qs)) == Plain(n).WithList(which, Bufs(qs))
    ensures Plain(n).List(which) == Bufs(n.List(which))
  {
    hide Bufs;
  }

  lemma PlainConcat(a: seq<Node<Queued>>, b: seq<Node<Queued>>)
    ensures PlainTable(a + b) == PlainTable(a) + PlainTable(b)
  {
    hide Plain;
  }

  lemma PlainOne(n: Node<Queued>)
    ensures PlainTable([n]) == [Plain(n)]
  {
    hide Plain;
  }

  lemma PlainInit(nodes: seq<Node<Queued>>)
    requires nodes != []
    ensures PlainTable(nodes[..|nodes| - 1]) == PlainTable(nodes)[..|nodes| - 1]
    ensures PlainTable(nodes)[|nodes| - 1] == Plain(nodes[|nodes| - 1])
    ensures PlainTable(nodes)[|nodes| - 1].addr == nodes[|nodes| - 1].addr
  {
    hide Bufs;
  }

  lemma {:induction false} PlainInsert(nodes: seq<Node<Queued>>, e: Node<Queued>)
    ensures PlainTable(Insert(nodes, e)) == Insert<nat>(PlainTable(nodes), Plain(e))
    decreases |nodes|
  {
    PlainOne(e);
    PlainConcat(nodes, [e]);
    if nodes != [] {
      var init, last := nodes[..|nodes| - 1], nodes[|nodes| - 1];
      PlainInit(nodes);
      PlainOne(last);
      PlainInsert(init, e);
      PlainConcat(Insert(init, e), [last]);
      assert Plain(e).addr == e.addr;
      hide PlainTable, Plain;
    }
  }

  lemma {:induction false} PlainBuild(roster: seq<Slave>)
    ensures PlainTable(Build<Queued>(roster)) == Build<nat>(roster)
    decreases |roster|
  {
    if roster != [] {
      var init, last := roster[..|roster| - 1], roster[|roster| - 1];
      PlainBuild(init);
      PlainInsert(Build<Queued>(init), FreshNode<Queued>(last));
      assert Plain(FreshNode<Queued>(last)) == FreshNode<nat>(last);
      hide PlainTable, Plain, Insert;
    }
  }

  lemma {:induction false} PlainQueued(nodes: seq<Node<Queued>>)
    ensures AllQueued(PlainTable(nodes)) == Bufs(AllQueued(nodes))
    decreases |nodes|
  {
    if nodes != [] {
      var init, n := nodes[..|nodes| - 1], nodes[|nodes| - 1];
      PlainQueued(init);
      PlainInit(nodes);
      BufsConcat(AllQueued(init) + n.list0, n.list1);
      BufsConcat(AllQueued(init), n.list0);
      hide PlainTable, Bufs;
    }
  }

  lemma {:induction false} BufsReversed(qs: seq<Queued>)
    ensures Bufs(Reversed(qs)) == Reversed(Bufs(qs))
    decreases |qs|
  {
    if qs != [] {
      BufsReversed(qs[1..]);
      BufsConcat(Reversed(qs[1..]), [qs[0]]);
      assert Bufs(qs)[1..] == Bufs(qs[1..]) && Bufs(qs)[0] == qs[0].buf && Bufs([qs[0]]) == [qs[0].buf];
      hide Bufs;
    }
  }

  // ---- Step by step -------------------------------------------------------------------

  function Marked(p: Pool, dead: seq<bool>): Pool
    requires |dead| == |p.table|
  {
    p.(table := seq(|dead|, i requires 0 <= i < |dead| => p.table[i].(dead := dead[i])))
  }

  /** What a step of the engine does to the pool. */
  function PoolNext(s: State, t: Step): Pool
    requires Shaped(s) && Enabled(s, t)
  {
    var p := Project(s);
    match t
    case Grab => GrabStep(p)
    case Attach(k, dest) => AttachStep(p, s.filling[k], dest).0
    case GiveBack(k) => RecoverStep(p, s.rejected[k])
    case Begin => if s.dirty then RebuildStep(p, s.roster) else p
    case RecoverOrphan => if s.pc.rest == [] then p else RecoverStep(p, s.pc.rest[0].buf)
    case Swap => SwapStep(p)
    case TakeHead => if s.pc.i < |s.nodes| then TakeStep(p, s.pc.i) else p
    case Recover => RecoverStep(p, s.pc.sent.buf)
    case Polls(dead) => Marked(p, dead)
    case Fill(_, _) => p
    case ChangeRoster(_, _) => p
    case SendOrDrop => p
  }

  lemma AttachRefines(s: State, k: nat, dest: byte)
    requires Shaped(s) && k < |s.filling|
    ensures Project(Attached(s, k, dest)) == AttachStep(Project(s), s.filling[k], dest).0
    ensures AttachStep(Project(s), s.filling[k], dest).1 <==> IndexOf(s.nodes, dest) >= 0
  {
    hide IndexFrom, PlainTable, Plain, Bufs;
    PlainIndex(s.nodes, dest, 0);
    var i := IndexOf(s.nodes, dest);
    if i >= 0 {
      var n, fill := s.nodes[i], !s.active;
      var qs := [Queued(s.filling[k], |s.accepted|)] + n.List(fill);
      BufsFront(Queued(s.filling[k], |s.accepted|), n.List(fill));
      PlainList(n, fill, qs);
      PlainUpdate(s.nodes, i, n.WithList(fill, qs));
      PlainAt(s.nodes, i);
    }
  }

  lemma PlainAt(nodes: seq<Node<Queued>>, i: nat)
    requires i < |nodes|
    ensures PlainTable(nodes)[i] == Plain(nodes[i])
  {
    hide Plain;
  }

  lemma TakeRefines(s: State)
    requires s.pc.Take?
    ensures Project(Taken(s, s.pc.i)) ==
      if s.pc.i < |s.nodes| then TakeStep(Project(s), s.pc.i) else Project(s)
  {
    hide PlainTable, Plain;
    if s.pc.i < |s.nodes| {
      var n := s.nodes[s.pc.i];
      assert Bufs([]) == [];
      PlainList(n, s.active, []);
      PlainUpdate(s.nodes, s.pc.i, n.WithList(s.active, []));
      PlainAt(s.nodes, s.pc.i);
    }
  }

  lemma PollsRefine(s: State, dead: seq<bool>)
    requires |dead| == |s.nodes|
    ensures Project(Polled(s, dead)) == Marked(Project(s), dead)
  {
    hide Bufs;
  }

  lemma BeginRefines(s: State)
    requires s.pc.Start?
    ensures Project(Begun(s)) == if s.dirty then RebuildStep(Project(s), s.roster) else Project(s)
  {
    hide Build, PlainTable, Discards, AllQueued;
    PlainBuild(s.roster);
  }

  /** Every step of the engine is, on the linked buffers, what one method does in place. */
  lemma StepRefines(s: State, t: Step)
    requires Shaped(s) && Enabled(s, t)
    ensures Project(Next(s, t)) == PoolNext(s, t)
  {
    hide Attached, Taken, Polled, Begun, AttachStep, TakeStep, RebuildStep, Marked, PlainTable;
    match t {
      case Attach(k, dest) => AttachRefines(s, k, dest);
      case Begin => BeginRefines(s);
      case TakeHead => TakeRefines(s);
      case Polls(dead) => PollsRefine(s, dead);
      case _ =>
    }
  }

  /** What is handed over with a step is the same as well: the buffer that is taken, whether the
      address was known, the chain detached from a node, the chain of orphans. */
  lemma HandedOver(s: State, t: Step)
    requires Shaped(s) && Enabled(s, t)
    ensures t.Grab? && s.free != [] ==> Next(s, t).filling == s.filling + [Project(s).free[0]]
    ensures t.Attach? ==>
      (AttachStep(Project(s), s.filling[t.k], t.dest).1 <==> Next(s, t).rejected == s.rejected)
    ensures t.TakeHead? && s.pc.i < |s.nodes| ==>
      Next(s, t).pc.Drain? && Bufs(Next(s, t).pc.chain) == Project(s).table[s.pc.i].List(s.active)
    ensures t.Begin? && s.dirty ==>
      Next(s, t).pc.Orphaned? && Bufs(Next(s, t).pc.rest) == Pushed(AllQueued(Project(s).table), [])
  {
    hide IndexFrom, PlainTable, Plain, Bufs, Build, AllQueued, Reversed, Discards;
    match t {
      case Attach(k, dest) => AttachRefines(s, k, dest);
      case TakeHead =>
        if s.pc.i < |s.nodes| {
          PlainAt(s.nodes, s.pc.i);
          PlainList(s.nodes[s.pc.i], s.active, []);
        }
      case Begin =>
        PlainQueued(s.nodes);
        BufsReversed(AllQueued(s.nodes));
        OntoNone(AllQueued(s.nodes));
        OntoNone(Bufs(AllQueued(s.nodes)));
      case _ =>
    }
  }

  lemma OntoNone<T>(qs: seq<T>)
    ensures Pushed(qs, []) == Reversed(qs)
  {
  }

  // ---- A whole send -------------------------------------------------------------------

  /** The state after an undisturbed send: taken, filled, attached, and given back if turned down. */
  function SendRun(s: State, c: Content, dest: byte): State
    requires Shaped(s) && (s.free != [] ==> s.free[0] < POOL_N)
  {
    if s.free == [] then Next(s, Grab)
    else
      var k := |s.filling|;
      var filled := Next(Next(s, Grab), Fill(k, c));
      var q := Next(filled, Attach(k, dest));
      if IndexOf(s.nodes, dest) >= 0 then q else Next(q, GiveBack(|s.rejected|))
  }

  lemma WithoutLast(s: seq<nat>, b: nat)
    ensures Without(s + [b], |s|) == s
  {
  }

  /** A send in place is four steps of the engine run together: it accepts the message if and only if
      it reports success, and otherwise leaves lists and pool as they were. */
  lemma SendRefines(s: State, c: Content, dest: byte)
    requires Shaped(s) && (s.free != [] ==> s.free[0] < POOL_N)
    ensures var e, r := SendRun(s, c, dest), SendStep(Project(s), dest);
      && Project(e) == r.0 && e.filling == s.filling && e.rejected == s.rejected
      && e.contents == (if s.free == [] then s.contents else s.contents[s.free[0] := c])
      && e.accepted == s.accepted + (if r.1 then [Message(dest, c, s.swaps)] else [])
      && (!r.1 ==> r.0 == Project(s))
  {
    hide IndexFrom, PlainTable;
    if s.free != [] {
      var k, b := |s.filling|, s.free[0];
      var grabbed := Next(s, Grab);
      var filled := Next(grabbed, Fill(k, c));
      WithoutLast(s.filling, b);
      AttachRefines(filled, k, dest);
      WithoutLast(s.rejected, b);
      assert s.free == [b] + s.free[1..];
    }
  }

  // ---- A whole message pass -----------------------------------------------------------

  /** The frames that a log put on the wire, in order. */
  function Emitted(log: seq<Event>): seq<DataFrame> {
    if log == [] then []
    else
      Emitted(log[..|log| - 1]) +
        match log[|log| - 1]
        case OnWire(_, addr, content) => [DataFrame(addr, content)]
        case _ => []
  }

  lemma EmittedMore(log: seq<Event>, e: Event)
    ensures Emitted(log + [e]) == Emitted(log) + (if e.OnWire? then [DataFrame(e.addr, e.content)] else [])
  {
    assert (log + [e])[..|log|] == log;
  }

  /** The steps that drain n messages of a node. */
  function DrainSteps(n: nat): seq<Step> {
    if n == 0 then [SendOrDrop] else [SendOrDrop] + ([Recover] + DrainSteps(n - 1))
  }

  ghost predicate ChainBelow(chain: seq<Queued>) { forall k :: 0 <= k < |chain| ==> chain[k].buf < POOL_N }

  /** The state after those steps. */
  function DrainRun(s: State): State
    requires Shaped(s) && s.pc.Drain?
    decreases |s.pc.chain|
  {
    if s.pc.chain == [] then Next(s, SendOrDrop) else DrainRun(Next(Next(s, SendOrDrop), Recover))
  }

  lemma {:induction false} DrainRuns(s: State)
    requires Shaped(s) && s.pc.Drain?
    ensures Runs(s, DrainSteps(|s.pc.chain|), DrainRun(s))
    decreases |s.pc.chain|
  {
    if s.pc.chain == [] {
      RunsOne(s, SendOrDrop);
    } else {
      var mid := Next(s, SendOrDrop);
      var q := Next(mid, Recover);
      var ts := DrainSteps(|q.pc.chain|);
      DrainRuns(q);
      hide Next, DrainRun, Runs;
      RunsMore(mid, Recover, ts, DrainRun(q));
      RunsMore(s, SendOrDrop, [Recover] + ts, DrainRun(q));
    }
  }

  lemma RunsOne(s: State, t: Step)
    requires Shaped(s) && Enabled(s, t)
    ensures Runs(s, [t], Next(s, t))
  {
    hide Next, Enabled, Shaped;
    assert [t][1..] == [];
    assert Runs(Next(s, t), [], Next(s, t));
  }

  lemma RunsMore(s: State, t: Step, ts: seq<Step>, end: State)
    requires Shaped(s) && Enabled(s, t) && Runs(Next(s, t), ts, end)
    ensures Runs(s, [t] + ts, end)
  {
    hide Next, Enabled, Shaped;
    assert ([t] + ts)[1..] == ts;
  }

  /** One message of a node: sent or dropped, and its buffer put back. */
  lemma DrainOne(s: State)
    requires Shaped(s) && s.pc.Drain? && s.pc.chain != []
    ensures var q, n, m := Next(Next(s, SendOrDrop), Recover), s.nodes[s.pc.i], s.pc.chain[0];
      && Shaped(q) && q.pc == Drain(s.pc.i, s.pc.chain[1..]) && q.free == [m.buf] + s.free
      && q.nodes == s.nodes && q.active == s.active && q.contents == s.contents
      && m.buf < |s.contents|
      && Emitted(q.log) ==
         if n.dead then Emitted(s.log) else Emitted(s.log) + [DataFrame(n.addr, s.contents[m.buf])]
  {
    hide Emitted;
    EmittedMore(s.log, Next(s, SendOrDrop).log[|s.log|]);
  }

  lemma BufsBelow(qs: seq<Queued>, n: nat)
    requires forall k :: 0 <= k < |qs| ==> qs[k].buf < n
    ensures Below(Bufs(qs), n)
  {
  }

  lemma BufsTail(qs: seq<Queued>)
    requires qs != []
    ensures Bufs(qs) != [] && Bufs(qs)[0] == qs[0].buf && Bufs(qs)[1..] == Bufs(qs[1..])
  {
  }

  lemma DrainEnds(s: State)
    requires Shaped(s) && s.pc.Drain? && s.pc.chain == []
    ensures DrainRun(s) == s.(pc := Take(s.pc.i + 1)) && Shaped(DrainRun(s)) && Bufs(s.pc.chain) == []
  {
  }

  /** What draining a chain comes to, by the loop and by the engine. */
  ghost predicate DrainedTo(s: State, e: State)
    requires s.pc.Drain? && s.pc.i < |s.nodes|
  {
    var bs, n := Bufs(s.pc.chain), s.nodes[s.pc.i];
    && Shaped(e) && e.pc == Take(s.pc.i + 1) && e.nodes == s.nodes && e.active == s.active && e.contents == s.contents
    && e.free == Pushed(bs, s.free) && Below(bs, |s.contents|)
    && Emitted(e.log) == Emitted(s.log) + Wire(n.dead, n.addr, bs, s.contents)
  }

  lemma DrainMore(s: State, q: State, e: State)
    requires Shaped(s) && s.pc.Drain? && s.pc.chain != [] && q == Next(Next(s, SendOrDrop), Recover)
    requires q.pc.Drain? && q.pc.i < |q.nodes| && DrainedTo(q, e)
    ensures DrainedTo(s, e)
  {
    var n, bs := s.nodes[s.pc.i], Bufs(s.pc.chain);
    BufsBelow(s.pc.chain, |s.contents|);
    hide Next, Emitted, Bufs, Wire, Pushed, Below;
    DrainOne(s);
    BufsTail(s.pc.chain);
    PushedStep(bs, s.free);
    WireStep(n.dead, n.addr, bs, Emitted(s.log), s.contents);
  }

  lemma {:induction false} DrainRefines(s: State)
    requires Shaped(s) && s.pc.Drain?
    ensures DrainedTo(s, DrainRun(s))
    decreases |s.pc.chain|
  {
    if s.pc.chain == [] {
      DrainEnds(s);
      var n := s.nodes[s.pc.i];
      hide DrainRun, Emitted;
      WireNone(n.dead, n.addr, s.contents);
      PushedNone(s.free);
    } else {
      var q := Next(Next(s, SendOrDrop), Recover);
      DrainOne(s);
      DrainRefines(q);
      DrainMore(s, q, DrainRun(q));
      hide DrainedTo, Next;
    }
  }

  /** Buffer numbers on the lists about to be drained are pool indices. */
  ghost predicate Drainable(s: State) {
    forall i :: 0 <= i < |s.nodes| ==> ChainBelow(s.nodes[i].List(s.active))
  }

  /** The message pass of one node, undisturbed. */
  ghost function NodeRun(s: State): State
    requires Shaped(s) && Drainable(s) && s.pc.Take? && s.pc.i < |s.nodes|
  {
    assert ChainBelow(s.nodes[s.pc.i].List(s.active));
    DrainRun(Next(s, TakeHead))
  }

  ghost predicate NodePassed(s: State, e: State)
    requires s.pc.Take? && s.pc.i < |s.nodes|
  {
    var i := s.pc.i;
    var n := s.nodes[i];
    var bs := Bufs(n.List(s.active));
    && Shaped(e) && e.pc == Take(i + 1) && e.active == s.active && e.contents == s.contents
    && e.nodes == s.nodes[i := n.WithList(s.active, [])]
    && Project(e) == DrainStep(Project(s), i) && Below(bs, |s.contents|)
    && Emitted(e.log) == Emitted(s.log) + Wire(n.dead, n.addr, bs, s.contents)
  }

  /** Draining a node in place is the engine's steps for it run together. */
  lemma NodeRefines(s: State)
    requires Shaped(s) && Drainable(s) && s.pc.Take? && s.pc.i < |s.nodes|
    ensures NodePassed(s, NodeRun(s))
    ensures Runs(s, [TakeHead] + DrainSteps(|s.nodes[s.pc.i].List(s.active)|), NodeRun(s))
  {
    var n := s.nodes[s.pc.i];
    assert ChainBelow(n.List(s.active));
    var q := Next(s, TakeHead);
    DrainRuns(q);
    DrainRefines(q);
    TakeRefines(s);
    PlainAt(s.nodes, s.pc.i);
    PlainList(n, s.active, []);
    hide DrainRun, Emitted, Bufs, Wire, Plain, PlainTable, Runs, DrainSteps, Pushed, Below;
    RunsMore(s, TakeHead, DrainSteps(|n.List(s.active)|), NodeRun(s));
  }

  /** The state after the first k nodes of a pass; the lists of the others are as they were. */
  ghost predicate PassedTo(s: State, k: nat, e: State)
    requires k <= |s.nodes|
  {
    && Shaped(e) && Drainable(e) && e.pc == Take(k) && e.active == s.active && e.contents == s.contents
    && |e.nodes| == |s.nodes| && (forall i :: k <= i < |s.nodes| ==> e.nodes[i] == s.nodes[i])
    && Project(e) == PassStep(Project(s), k)
    && AllBelow(Project(s).table, s.active, |s.contents|)
    && Emitted(e.log) == Emitted(s.log) + PassWire(Project(s), s.contents, k)
  }

  ghost predicate Reaches(s: State, e: State) { exists ts :: Runs(s, ts, e) }

  lemma {:induction false} RunsJoin(s: State, ts: seq<Step>, mid: State, us: seq<Step>, end: State)
    requires Runs(s, ts, mid) && Runs(mid, us, end)
    ensures Runs(s, ts + us, end)
    decreases |ts|
  {
    if ts == [] {
      assert ts + us == us;
    } else {
      RunsJoin(Next(s, ts[0]), ts[1..], mid, us, end);
      assert (ts + us)[1..] == ts[1..] + us;
      hide Next, Enabled, Shaped;
    }
  }

  lemma DrainableBelow(s: State)
    requires Shaped(s) && Drainable(s)
    ensures AllBelow(Project(s).table, s.active, |s.contents|)
  {
    hide Bufs, Below;
    forall i | 0 <= i < |s.nodes|
      ensures Below(Project(s).table[i].List(s.active), |s.contents|)
    {
      assert ChainBelow(s.nodes[i].List(s.active));
      BufsBelow(s.nodes[i].List(s.active), |s.contents|);
      PlainAt(s.nodes, i);
      PlainList(s.nodes[i], s.active, []);
    }
  }

  lemma StillDrainable(s: State, e: State)
    requires Drainable(s) && s.pc.Take? && s.pc.i < |s.nodes| && NodePassed(s, e)
    ensures Drainable(e)
  {
    hide Emitted, Wire, Project, DrainStep;
    var i := s.pc.i;
    forall k | 0 <= k < |e.nodes|
      ensures ChainBelow(e.nodes[k].List(e.active))
    {
      if k != i {
        assert ChainBelow(s.nodes[k].List(s.active));
      }
    }
  }

  lemma PassMoreWire(s: State, k: nat, q: State, e: State)
    requires k < |s.nodes| && PassedTo(s, k, q) && NodePassed(q, e)
    ensures Emitted(e.log) == Emitted(s.log) + PassWire(Project(s), s.contents, k + 1)
  {
    var n, p := s.nodes[k], Project(s);
    assert q.nodes[k] == n;
    PlainAt(s.nodes, k);
    PlainList(n, s.active, []);
    var e1 := p.table[k];
    assert p.active == s.active && e1.dead == n.dead && e1.addr == n.addr;
    assert e1.List(s.active) == Bufs(n.List(s.active));
    hide Emitted, Bufs, Project, Wire, PassStep, PassWire, DrainStep, AllBelow, Below, Drainable, Shaped;
    PassOne(p, s.contents, k);
    Joined(Emitted(s.log), PassWire(p, s.contents, k), Wire(n.dead, n.addr, Bufs(n.List(s.active)), s.contents));
  }

  lemma PassMore(s: State, k: nat, q: State, e: State)
    requires k < |s.nodes| && PassedTo(s, k, q) && NodePassed(q, e)
    ensures PassedTo(s, k + 1, e)
  {
    hide Emitted, Bufs, Project, Wire, PassStep, PassWire, DrainStep, AllBelow, Below, Drainable, Shaped;
    StillDrainable(q, e);
    PassMoreWire(s, k, q, e);
    assert Project(s).active == s.active && |Project(s).table| == |s.nodes| by { ProjectShape(s); }
    PassOne(Project(s), s.contents, k);
  }

  lemma ProjectShape(s: State)
    ensures Project(s).active == s.active && |Project(s).table| == |s.nodes|
  {
  }

  lemma Joined(a: seq<DataFrame>, b: seq<DataFrame>, c: seq<DataFrame>)
    ensures (a + b) + c == a + (b + c)
  {
  }

  lemma PassStarts(s: State)
    requires Shaped(s) && Drainable(s) && s.pc == Take(0)
    ensures PassedTo(s, 0, s) && Reaches(s, s)
  {
    DrainableBelow(s);
    assert Runs(s, [], s);
    hide Emitted, PlainTable, Drainable, AllBelow;
    PassNone(Project(s), s.contents);
  }

  lemma PassExtends(s: State, k: nat, q: State) returns (e: State)
    requires k < |s.nodes| && PassedTo(s, k, q) && Reaches(s, q)
    ensures PassedTo(s, k + 1, e) && Reaches(s, e)
  {
    hide Runs, PassStep, PassWire, Emitted, PlainTable, DrainSteps, Drainable, Shaped, AllBelow;
    e := NodeRun(q);
    hide NodeRun, NodePassed;
    var ts :| Runs(s, ts, q);
    NodeRefines(q);
    RunsJoin(s, ts, q, [TakeHead] + DrainSteps(|q.nodes[k].List(q.active)|), e);
    PassMore(s, k, q, e);
  }

  /** The message pass in place is one run of the engine: the same lists, the same pool, the same
      frames in the same order. */
  lemma {:induction false} PassRefines(s: State, k: nat) returns (e: State)
    requires Shaped(s) && Drainable(s) && s.pc == Take(0) && k <= |s.nodes|
    ensures PassedTo(s, k, e) && Reaches(s, e)
    decreases k
  {
    hide *;
    if k == 0 {
      e := s;
      PassStarts(s);
    } else {
      var q := PassRefines(s, k - 1);
      e := PassExtends(s, k - 1, q);
    }
  }
}
