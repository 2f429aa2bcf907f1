/** The transmit side of the bus engine as interleaved atomic steps: producers on both cores, the
    bus cycle, and roster changes, one step for each spinlock section. */
module BusMachine {
  import opened Bytes
  import opened BusTable

  const POOL_N := 24

  datatype Content = Content(payload: seq<byte>, tag: nat)

  /** A buffer on a list, with the number of the message it carries. */
  datatype Queued = Queued(buf: nat, id: nat)

  /** A message accepted by a producer call, and how many swaps had happened by then. */
  datatype Message = Message(dest: byte, content: Content, epoch: nat)

  datatype Event =
    | OnWire(id: nat, addr: byte, content: Content)
    | DroppedDead(id: nat, addr: byte)
    | Discarded(id: nat)

  /** Where the bus thread is in its cycle. */
  datatype Pc =
    | Start
    | Orphaned(rest: seq<Queued>)
    | Ready
    | Take(i: nat)
    | Drain(i: nat, chain: seq<Queued>)
    | Release(i: nat, sent: Queued, chain: seq<Queued>)
    | Sweep

  /** Producers are known by the buffers they hold: those being filled, and those turned down
      because the node is unknown. */
  datatype State = State(
    free: seq<nat>, avail: nat, contents: seq<Content>,
    filling: seq<nat>, rejected: seq<nat>,
    nodes: seq<Node<Queued>>, active: bool, roster: seq<Slave>, dirty: bool,
    pc: Pc, swaps: nat, accepted: seq<Message>, log: seq<Event>)

  datatype Step =
    | Grab
    | Fill(k: nat, c: Content)
    | Attach(k: nat, dest: byte)
    | GiveBack(k: nat)
    | ChangeRoster(roster: seq<Slave>, flag: bool)
    | Begin
    | RecoverOrphan
    | Swap
    | TakeHead
    | SendOrDrop
    | Recover
    | Polls(dead: seq<bool>)

  predicate Shaped(s: State) {
    && |s.contents| == POOL_N
    && (forall i :: 0 <= i < |s.filling| ==> s.filling[i] < POOL_N)
    && (s.pc.Drain? ==> s.pc.i < |s.nodes| && forall k :: 0 <= k < |s.pc.chain| ==> s.pc.chain[k].buf < POOL_N)
  }

  predicate Enabled(s: State, t: Step)
    requires Shaped(s)
  {
    match t
    case Grab => true
    case Fill(k, _) => k < |s.filling|
    case Attach(k, _) => k < |s.filling|
    case GiveBack(k) => k < |s.rejected|
    case ChangeRoster(roster, _) => |roster| <= ROSTER_MAX
    case Begin => s.pc.Start?
    case RecoverOrphan => s.pc.Orphaned?
    case Swap => s.pc.Ready?
    case TakeHead => s.pc.Take?
    case SendOrDrop => s.pc.Drain?
    case Recover => s.pc.Release?
    case Polls(dead) => s.pc.Sweep? && |dead| == |s.nodes|
  }

  function Without(s: seq<nat>, k: nat): seq<nat>
    requires k < |s|
  {
    s[..k] + s[k + 1..]
  }

  function Discards(qs: seq<Queued>): seq<Event> {
    if qs == [] then [] else Discards(qs[..|qs| - 1]) + [Discarded(qs[|qs| - 1].id)]
  }

  function PutBack(s: State, b: nat): State {
    s.(free := [b] + s.free, avail := s.avail + 1)
  }

  function Grabbed(s: State): State {
    if s.free == [] then s
    else s.(free := s.free[1..], avail := if s.avail > 0 then s.avail - 1 else 0, filling := s.filling + [s.free[0]])
  }

  function Attached(s: State, k: nat, dest: byte): State
    requires Shaped(s) && k < |s.filling|
  {
    var b, i := s.filling[k], IndexOf(s.nodes, dest);
    var left := s.(filling := Without(s.filling, k));
    if i < 0 then left.(rejected := s.rejected + [b])
    else
      var n := s.nodes[i];
      left.(nodes := s.nodes[i := n.WithList(!s.active, [Queued(b, |s.accepted|)] + n.List(!s.active))],
            accepted := s.accepted + [Message(dest, s.contents[b], s.swaps)])
  }

  function Begun(s: State): State {
    if !s.dirty then s.(pc := Ready)
    else
      var orphans := Pushed(AllQueued(s.nodes), []);
      s.(dirty := false, nodes := Build(s.roster), pc := Orphaned(orphans), log := s.log + Discards(orphans))
  }

  function Taken(s: State, i: nat): State {
    if i >= |s.nodes| then s.(pc := Sweep)
    else
      var n := s.nodes[i];
      s.(nodes := s.nodes[i := n.WithList(s.active, [])], pc := Drain(i, n.List(s.active)))
  }

  function Sent(s: State, i: nat, chain: seq<Queued>): State
    requires |s.contents| == POOL_N && i < |s.nodes|
    requires forall k :: 0 <= k < |chain| ==> chain[k].buf < POOL_N
  {
    if chain == [] then s.(pc := Take(i + 1))
    else
      var q, n := chain[0], s.nodes[i];
      var e := if n.dead then DroppedDead(q.id, n.addr) else OnWire(q.id, n.addr, s.contents[q.buf]);
      s.(log := s.log + [e], pc := Release(i, q, chain[1..]))
  }

  function Polled(s: State, dead: seq<bool>): State
    requires |dead| == |s.nodes|
  {
    s.(nodes := seq(|dead|, i requires 0 <= i < |dead| => s.nodes[i].(dead := dead[i])), pc := Start)
  }

  function Next(s: State, t: Step): State
    requires Shaped(s) && Enabled(s, t)
  {
    match t
    case Grab => Grabbed(s)
    case Fill(k, c) => s.(contents := s.contents[s.filling[k] := c])
    case Attach(k, dest) => Attached(s, k, dest)
    case GiveBack(k) => PutBack(s, s.rejected[k]).(rejected := Without(s.rejected, k))
    case ChangeRoster(roster, flag) => s.(roster := roster, dirty := s.dirty || flag)
    case Begin => Begun(s)
    case RecoverOrphan =>
      if s.pc.rest == [] then s.(pc := Ready)
      else PutBack(s, s.pc.rest[0].buf).(pc := Orphaned(s.pc.rest[1..]))
    case Swap => s.(active := !s.active, swaps := s.swaps + 1, pc := Take(0))
    case TakeHead => Taken(s, s.pc.i)
    case SendOrDrop => Sent(s, s.pc.i, s.pc.chain)
    case Recover => PutBack(s, s.pc.sent.buf).(pc := Drain(s.pc.i, s.pc.chain))
    case Polls(dead) => Polled(s, dead)
  }
}
