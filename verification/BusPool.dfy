/** The buffer pool and the node table as the firmware holds them: buffers linked through their
    `next` fields, list heads in the node records; a method for each spinlock section, and for the
    sends, drains and rebuilds made of them. */
module BusPool {
  import opened Bytes
  import opened BusTable
  import opened BusMachine

  const PAYLOAD_MAX := 240
  const NIL := -1

  datatype NodeRec = NodeRec(addr: byte, enabled: bool, dead: bool, miss: byte, head0: int, head1: int) {
    function Head(which: bool): int { if which then head1 else head0 }

    function WithHead(which: bool, h: int): (r: NodeRec)
      ensures r.Head(which) == h && r.Head(!which) == Head(!which)
    {
      if which then this.(head1 := h) else this.(head0 := h)
    }
  }

  /** Following `next` from `head` visits exactly s. */
  ghost predicate Chain(next: seq<int>, head: int, s: seq<nat>)
    decreases |s|
  {
    if s == [] then head == NIL
    else head == s[0] && s[0] < |next| && Chain(next, next[s[0]], s[1..])
  }

  lemma {:induction false} ChainFrame(next: seq<int>, next': seq<int>, head: int, s: seq<nat>)
    requires |next| == |next'| && Chain(next, head, s)
    requires forall b :: b in s && b < |next| ==> next'[b] == next[b]
    ensures Chain(next', head, s)
    decreases |s|
  {
    if s != [] {
      ChainFrame(next, next', next[s[0]], s[1..]);
    }
  }

  lemma {:induction false} ChainUnique(next: seq<int>, head: int, s: seq<nat>, t: seq<nat>)
    requires Chain(next, head, s) && Chain(next, head, t)
    ensures s == t
    decreases |s|
  {
    if s != [] {
      assert t != [];
      ChainUnique(next, next[s[0]], s[1..], t[1..]);
      assert s == [s[0]] + s[1..] && t == [t[0]] + t[1..];
    }
  }

  lemma {:induction false} ChainSuffix(next: seq<int>, head: int, s: seq<nat>, k: nat)
    requires Chain(next, head, s) && k < |s|
    ensures Chain(next, s[k], s[k..])
    decreases |s|
  {
    if k > 0 {
      ChainSuffix(next, next[s[0]], s[1..], k - 1);
      assert s[k..] == s[1..][k - 1..];
    } else {
      assert s[0..] == s;
    }
  }

  lemma ChainTail(next: seq<int>, head: int, s: seq<nat>)
    requires Chain(next, head, s) && s != []
    ensures 0 <= head < |next| && head == s[0] && Chain(next, next[head], s[1..])
  {
  }

  lemma ChainPush(next: seq<int>, next': seq<int>, b: nat, s: seq<nat>)
    requires |next| == |next'| && b < |next| && b !in s && Chain(next, next'[b], s)
    requires forall k :: 0 <= k < |next| && k != b ==> next'[k] == next[k]
    ensures Chain(next', b, [b] + s)
  {
    ChainFrame(next, next', next'[b], s);
    assert ([b] + s)[1..] == s;
  }

  /** A linked list never comes back to its first element. */
  lemma ChainHeadOnce(next: seq<int>, head: int, s: seq<nat>)
    requires Chain(next, head, s) && s != []
    ensures s[0] !in s[1..]
  {
    if s[0] in s[1..] {
      var k :| 1 <= k < |s| && s[k] == s[0];
      ChainSuffix(next, head, s, k);
      ChainUnique(next, s[0], s, s[k..]);
    }
  }

  /** Which list a buffer is on; Out means some thread holds it. */
  datatype Place = Free | OnList(i: nat, which: bool) | Out

  /** The value of the pool: free list, node lists, and which list of each node is being drained. */
  datatype Pool = Pool(free: seq<nat>, table: seq<Node<nat>>, active: bool)

  function GrabStep(p: Pool): Pool { if p.free == [] then p else p.(free := p.free[1..]) }

  function RecoverStep(p: Pool, b: nat): Pool { p.(free := [b] + p.free) }

  /** A producer's push onto the fill list of a node; false when the address is unknown. */
  function AttachStep(p: Pool, b: nat, dest: byte): (r: (Pool, bool))
    ensures |r.0.table| == |p.table|
  {
    var i := IndexOf(p.table, dest);
    if i < 0 then (p, false)
    else (p.(table := p.table[i := p.table[i].WithList(!p.active, [b] + p.table[i].List(!p.active))]), true)
  }

  function SwapStep(p: Pool): Pool { p.(active := !p.active) }

  function TakeStep(p: Pool, i: nat): Pool
    requires i < |p.table|
  {
    p.(table := p.table[i := p.table[i].WithList(p.active, [])])
  }

  function RebuildStep(p: Pool, roster: seq<Slave>): Pool { p.(table := Build<nat>(roster)) }

  /** A whole send: a buffer is taken, filled and attached, or given back. */
  function SendStep(p: Pool, dest: byte): (Pool, bool) {
    if p.free == [] then (p, false)
    else
      var (q, ok) := AttachStep(GrabStep(p), p.free[0], dest);
      (if ok then q else RecoverStep(q, p.free[0]), ok)
  }

  /** The draining of one node: its list is detached and every buffer put back in turn. */
  function DrainStep(p: Pool, i: nat): Pool
    requires i < |p.table|
  {
    TakeStep(p, i).(free := Pushed(p.table[i].List(p.active), p.free))
  }

  /** A data frame on the wire. */
  datatype DataFrame = DataFrame(addr: byte, content: Content)

  predicate Below(bs: seq<nat>, n: nat) { forall k :: 0 <= k < |bs| ==> bs[k] < n }

  function Frames(addr: byte, bs: seq<nat>, contents: seq<Content>): seq<DataFrame>
    requires Below(bs, |contents|)
  {
    seq(|bs|, k requires 0 <= k < |bs| => DataFrame(addr, contents[bs[k]]))
  }

  /** What draining a list sends: nothing to a dead node. */
  function Wire(dead: bool, addr: byte, bs: seq<nat>, contents: seq<Content>): seq<DataFrame>
    requires Below(bs, |contents|)
  {
    if dead then [] else Frames(addr, bs, contents)
  }

  /** The whole message pass: the first n nodes drained in turn. */
  function PassStep(p: Pool, n: nat): (q: Pool)
    requires n <= |p.table|
    ensures |q.table| == |p.table| && q.active == p.active
    ensures forall k :: n <= k < |p.table| ==> q.table[k] == p.table[k]
  {
    if n == 0 then p else DrainStep(PassStep(p, n - 1), n - 1)
  }

  predicate AllBelow(table: seq<Node<nat>>, which: bool, n: nat) {
    forall i :: 0 <= i < |table| ==> Below(table[i].List(which), n)
  }

  /** Everything the pass over the first n nodes sends. */
  function PassWire(p: Pool, contents: seq<Content>, n: nat): seq<DataFrame>
    requires n <= |p.table| && AllBelow(p.table, p.active, |contents|)
  {
    if n == 0 then []
    else
      var e := p.table[n - 1];
      PassWire(p, contents, n - 1) + Wire(e.dead, e.addr, e.List(p.active), contents)
  }

  /** Which of the first n nodes the pass sends something. */
  function PassMarks(p: Pool, n: nat): (r: seq<bool>)
    requires n <= |p.table|
    ensures |r| == n && forall i :: 0 <= i < n ==> r[i] == (!p.table[i].dead && p.table[i].List(p.active) != [])
  {
    seq(n, i requires 0 <= i < n => !p.table[i].dead && p.table[i].List(p.active) != [])
  }

  ghost predicate PlacesOk(free: seq<nat>, table: seq<Node<nat>>, places: seq<Place>) {
    && |places| == POOL_N
    && (forall b :: b in free ==> b < POOL_N && places[b] == Free)
    && (forall i, w :: 0 <= i < |table| ==>
          forall b :: b in table[i].List(w) ==> b < POOL_N && places[b] == OnList(i, w))
  }

  /** The places after node i gets the list s: its old buffers are out, those of s are on it. */
  function Relisted(places: seq<Place>, i: nat, which: bool, gone: seq<nat>, s: seq<nat>): (res: seq<Place>)
    ensures |res| == |places|
    ensures forall b :: 0 <= b < |places| ==>
      res[b] == if b in s then OnList(i, which) else if b in gone then Out else places[b]
  {
    seq(|places|, b requires 0 <= b < |places| =>
      if b in s then OnList(i, which) else if b in gone then Out else places[b])
  }

  lemma RelistedOk(free: seq<nat>, table: seq<Node<nat>>, places: seq<Place>, i: nat, which: bool, s: seq<nat>)
    requires PlacesOk(free, table, places) && i < |table|
    requires forall b :: b in s ==> b < POOL_N && (places[b] == Out || places[b] == OnList(i, which))
    ensures PlacesOk(free, table[i := table[i].WithList(which, s)], Relisted(places, i, which, table[i].List(which), s))
  {
    var t, gone := table[i := table[i].WithList(which, s)], table[i].List(which);
    forall k, w | 0 <= k < |t|
      ensures forall b :: b in t[k].List(w) ==> b < POOL_N && Relisted(places, i, which, gone, s)[b] == OnList(k, w)
    {
      if k != i || w != which {
        assert t[k].List(w) == table[k].List(w);
      }
    }
  }

  class TxPool {
    const next: array<int>
    const contents: array<Content>
    const nodes: array<NodeRec>
    var freeHead: int
    var avail: nat
    var low: nat
    var exhausted: nat
    var nodesN: nat
    var active: bool
    ghost var free: seq<nat>
    ghost var table: seq<Node<nat>>
    ghost var places: seq<Place>

    ghost predicate RecMatches(r: NodeRec, n: Node<nat>)
      reads next
    {
      && r.addr == n.addr && r.enabled == n.enabled && r.dead == n.dead && r.miss == n.miss
      && Chain(next[..], r.head0, n.list0) && Chain(next[..], r.head1, n.list1)
    }

    ghost predicate Valid()
      reads this, next, nodes
    {
      && next.Length == contents.Length == POOL_N && nodes.Length == ROSTER_MAX
      && nodesN == |table| <= ROSTER_MAX
      && avail == |free|
      && PlacesOk(free, table, places)
      && Chain(next[..], freeHead, free)
      && forall i :: 0 <= i < nodesN ==> RecMatches(nodes[i], table[i])
    }

    ghost function Value(): Pool
      reads this
    {
      Pool(free, table, active)
    }

    ghost predicate Private(b: nat)
      reads this`places
    {
      b < |places| && places[b] == Out
    }

    /** Takes a free buffer for the caller; NIL when the pool is exhausted. */
    method Grab() returns (b: int)
      requires Valid()
      modifies this`freeHead, this`avail, this`low, this`free, this`places
      ensures Valid() && Value() == GrabStep(old(Value()))
      ensures if old(free) == [] then b == NIL && places == old(places)
              else b == old(free)[0] && 0 <= b < POOL_N && places == old(places)[b := Out]
    {
      b := freeHead;
      if b != NIL {
        assert free != [] && b == free[0];
        ChainHeadOnce(next[..], freeHead, free);
        assert free[0] in free && forall x :: x in free[1..] ==> x in free;
        hide Chain, RecMatches;
        assert Chain(next[..], next[b], free[1..]) by {
          ChainTail(next[..], freeHead, free);
        }
        freeHead := next[b];
        avail := avail - 1;
        if avail < low {
          low := avail;
        }
        free := free[1..];
        places := places[b := Out];
      }
    }

    /** Writes the link of a buffer that is on no list. */
    method Link(b: nat, head: int, ghost s: seq<nat>)
      requires Valid() && Private(b) && Chain(next[..], head, s) && b !in s
      modifies next
      ensures Valid() && Chain(next[..], b, [b] + s)
      ensures forall k :: 0 <= k < POOL_N && k != b ==> next[k] == old(next[k])
    {
      ghost var was := next[..];
      assert forall i, w :: 0 <= i < |table| ==> b !in table[i].List(w);
      next[b] := head;
      hide Chain;
      ChainFrame(was, next[..], freeHead, free);
      TableFrame(was);
      ChainPush(was, next[..], b, s);
    }

    method Recover(b: nat)
      requires Valid() && Private(b)
      modifies this`freeHead, this`avail, this`free, this`places, next
      ensures Valid() && Value() == RecoverStep(old(Value()), b)
      ensures places == old(places)[b := Free]
      ensures forall k :: 0 <= k < POOL_N && k != b ==> next[k] == old(next[k])
    {
      hide Chain, RecMatches;
      Link(b, freeHead, free);
      freeHead := b;
      avail := avail + 1;
      free := [b] + free;
      places := places[b := Free];
    }

    /** The lists of the table survive a change of `next` at buffers that are on none of them. */
    lemma TableFrame(was: seq<int>)
      requires |was| == next.Length == POOL_N && nodesN == |table| <= nodes.Length && PlacesOk(free, table, places)
      requires forall i :: 0 <= i < nodesN ==>
        Chain(was, nodes[i].head0, table[i].list0) && Chain(was, nodes[i].head1, table[i].list1)
      requires forall b :: 0 <= b < POOL_N && places[b].OnList? ==> next[b] == was[b]
      ensures forall i :: 0 <= i < nodesN ==>
        Chain(next[..], nodes[i].head0, table[i].list0) && Chain(next[..], nodes[i].head1, table[i].list1)
    {
      forall i | 0 <= i < nodesN
        ensures Chain(next[..], nodes[i].head0, table[i].list0) && Chain(next[..], nodes[i].head1, table[i].list1)
      {
        assert forall b :: b in table[i].List(false) ==> places[b] == OnList(i, false);
        assert forall b :: b in table[i].List(true) ==> places[b] == OnList(i, true);
        ChainFrame(was, next[..], nodes[i].head0, table[i].list0);
        ChainFrame(was, next[..], nodes[i].head1, table[i].list1);
      }
    }

    method IndexOfNode(addr: byte) returns (r: int)
      requires Valid()
      ensures r == IndexOf(table, addr)
    {
      var i := 0;
      while i < nodesN
        invariant i <= nodesN
        invariant IndexFrom(table, addr, i) == IndexOf(table, addr)
      {
        assert RecMatches(nodes[i], table[i]);
        if nodes[i].addr == addr {
          return i;
        }
        i := i + 1;
      }
      r := -1;
    }

    /** Pushes a filled buffer onto the fill list of its node; false when the node is unknown. */
    method Attach(b: nat, dest: byte) returns (ok: bool)
      requires Valid() && Private(b)
      modifies this`table, this`places, next, nodes
      ensures Valid() && (Value(), ok) == AttachStep(old(Value()), b, dest)
      ensures places == if ok then old(places)[b := OnList(IndexOf(old(table), dest), !active)] else old(places)
    {
      hide Chain, RecMatches, PlacesOk;
      var i := IndexOfNode(dest);
      ok := i >= 0;
      if ok {
        AttachAt(i, b);
      }
    }

    lemma FillList(i: nat, b: nat)
      requires Valid() && Private(b) && i < nodesN
      ensures nodesN == |table| <= nodes.Length && b < POOL_N
      ensures Chain(next[..], nodes[i].Head(!active), table[i].List(!active)) && b !in table[i].List(!active)
      ensures forall x :: x in table[i].List(!active) ==> x < POOL_N && places[x] == OnList(i, !active)
    {
      assert RecMatches(nodes[i], table[i]);
      hide Chain;
    }

    lemma RelistedPush(was: seq<Place>, i: nat, which: bool, list: seq<nat>, b: nat)
      requires b < |was| && forall x :: x in list ==> x < |was| && was[x] == OnList(i, which)
      ensures Relisted(was, i, which, list, [b] + list) == was[b := OnList(i, which)]
    {
    }

    method AttachAt(i: nat, b: nat)
      requires Valid() && Private(b) && i < nodesN && i < |table|
      modifies this`table, this`places, next, nodes
      ensures Valid() && free == old(free)
      ensures table == old(table)[i := old(table[i]).WithList(!active, [b] + old(table[i]).List(!active))]
      ensures places == old(places)[b := OnList(i, !active)]
    {
      FillList(i, b);
      hide Valid, Chain, Relisted;
      ghost var n, was := table[i], places;
      Link(b, nodes[i].Head(!active), n.List(!active));
      SetList(i, !active, b, [b] + n.List(!active));
      RelistedPush(was, i, !active, n.List(!active), b);
    }

    /** Gives a node another list, whose buffers were on the old one or in the caller's hands. */
    method SetList(i: nat, which: bool, head: int, ghost s: seq<nat>)
      requires Valid() && i < nodesN && Chain(next[..], head, s)
      requires forall b :: b in s ==> b < POOL_N && (Private(b) || places[b] == OnList(i, which))
      modifies this`table, this`places, nodes
      ensures Valid() && table == old(table)[i := old(table[i]).WithList(which, s)]
      ensures places == Relisted(old(places), i, which, old(table[i].List(which)), s)
    {
      hide Chain, PlacesOk, Relisted;
      assert RecMatches(nodes[i], table[i]);
      RelistedOk(free, table, places, i, which, s);
      nodes[i] := nodes[i].WithHead(which, head);
      places := Relisted(places, i, which, table[i].List(which), s);
      table := table[i := table[i].WithList(which, s)];
    }

    method Swap()
      requires Valid()
      modifies this`active
      ensures Valid() && Value() == SwapStep(old(Value()))
    {
      active := !active;
    }

    /** Detaches one list of a node; the chain is the caller's from here on. */
    method TakeHead(i: nat, which: bool) returns (head: int)
      requires Valid() && i < nodesN
      modifies this`table, this`places, nodes
      ensures Valid() && free == old(free) && nodesN == old(nodesN)
      ensures table == old(table)[i := old(table[i]).WithList(which, [])]
      ensures Chain(next[..], head, old(table[i].List(which)))
      ensures forall b :: b in old(table[i].List(which)) ==> Private(b)
      ensures forall b :: old(Private(b)) ==> Private(b) && b !in old(table[i].List(which))
    {
      assert RecMatches(nodes[i], table[i]);
      head := nodes[i].Head(which);
      SetList(i, which, NIL, []);
    }

    /** A whole send, as a producer runs it: every path of the call. */
    method Send(dest: byte, payload: seq<byte>, tag: nat) returns (ok: bool)
      requires Valid()
      modifies this`freeHead, this`avail, this`low, this`exhausted, this`free, this`table, this`places
      modifies next, contents, nodes
      ensures Valid() && (Value(), ok) == SendStep(old(Value()), dest)
      ensures old(free) == [] ==> contents[..] == old(contents[..])
      ensures old(free) != [] && |payload| <= 240 ==>
        contents[..] == old(contents[..])[old(free)[0] := Content(payload, tag)]
      ensures old(free) != [] && |payload| > 240 ==>
        contents[..] == old(contents[..])[old(free)[0] := Content(payload[..240], tag)]
      ensures exhausted == if old(free) == [] then (old(exhausted) + 1) % 0x1_0000_0000 else old(exhausted)
    {
      hide Chain, RecMatches, AttachStep;
      var len := |payload|;
      if len > PAYLOAD_MAX {
        len := PAYLOAD_MAX;
      }
      var b := Grab();
      if b == NIL {
        exhausted := (exhausted + 1) % 0x1_0000_0000;
        return false;
      }
      contents[b] := Content(payload[..len], tag);
      assert |payload| <= PAYLOAD_MAX ==> payload[..len] == payload;
      assert contents[..] == old(contents[..])[b := Content(payload[..len], tag)];
      ok := Attach(b, dest);
      if !ok {
        Recover(b);
      }
    }

    /** Puts the first buffer of a private chain back. */
    method RecoverFirst(p: int, ghost rest: seq<nat>) returns (nx: int)
      requires Valid() && rest != [] && Chain(next[..], p, rest) && forall b :: b in rest ==> Private(b)
      modifies this`freeHead, this`avail, this`free, this`places, next
      ensures Valid() && p == rest[0] && Value() == RecoverStep(old(Value()), rest[0])
      ensures Chain(next[..], nx, rest[1..]) && forall b :: b in rest[1..] ==> Private(b)
    {
      ChainTail(next[..], p, rest);
      ChainHeadOnce(next[..], p, rest);
      assert forall b :: b in rest[1..] ==> b in rest && b != p;
      ghost var was := next[..];
      hide Chain, RecMatches, PlacesOk;
      nx := next[p];
      Recover(p);
      ChainFrame(was, next[..], nx, rest[1..]);
    }

    /** Sends or drops the buffers of a private chain, and puts each back. */
    method DrainChain(head: int, addr: byte, dead: bool, ghost s: seq<nat>) returns (wire: seq<DataFrame>)
      requires Valid() && Chain(next[..], head, s) && forall b :: b in s ==> Private(b)
      modifies this`freeHead, this`avail, this`free, this`places, next
      ensures Valid() && Value() == old(Value()).(free := Pushed(s, old(free)))
      ensures Below(s, POOL_N) && wire == Wire(dead, addr, s, contents[..])
    {
      wire := [];
      var p := head;
      ghost var rest: seq<nat> := s;
      PrivateBelow(s);
      assert contents.Length == POOL_N && next.Length == POOL_N;
      hide Valid, Pushed, Wire, Below;
      while p != NIL
        invariant Valid() && Chain(next[..], p, rest) && forall b :: b in rest ==> Private(b)
        invariant Value() == old(Value()).(free := free) && Pushed(rest, free) == Pushed(s, old(free))
        invariant Below(s, POOL_N) && Below(rest, POOL_N)
        invariant wire + Wire(dead, addr, rest, contents[..]) == Wire(dead, addr, s, contents[..])
        decreases |rest|
      {
        assert rest != [] && p == rest[0];
        hide Chain;
        WireStep(dead, addr, rest, wire, contents[..]);
        PushedStep(rest, free);
        if !dead {
          wire := wire + [DataFrame(addr, contents[p])];
        }
        p := RecoverFirst(p, rest);
        rest := rest[1..];
      }
      WireNone(dead, addr, contents[..]);
      PushedNone(free);
    }

    lemma PrivateBelow(s: seq<nat>)
      requires Valid() && forall b :: b in s ==> Private(b)
      ensures Below(s, POOL_N)
    {
      assert forall k :: 0 <= k < |s| ==> Private(s[k]);
    }

    /** The message pass for one node. */
    method DrainNode(i: nat) returns (wire: seq<DataFrame>)
      requires Valid() && i < nodesN
      modifies this`freeHead, this`avail, this`free, this`table, this`places, next, nodes
      ensures Valid() && Value() == DrainStep(old(Value()), i)
      ensures
        var n, bs := old(table[i]), old(table[i].List(active));
        Below(bs, POOL_N) && wire == Wire(n.dead, n.addr, bs, contents[..])
    {
      ghost var n := table[i];
      assert RecMatches(nodes[i], n);
      var addr, dead := nodes[i].addr, nodes[i].dead;
      var head := TakeHead(i, active);
      wire := DrainChain(head, addr, dead, n.List(active));
    }

    lemma Sizes()
      requires Valid()
      ensures next.Length == contents.Length == POOL_N && nodesN == |table| <= nodes.Length
    {
    }

    lemma ListsBelow()
      requires Valid()
      ensures AllBelow(table, active, POOL_N)
    {
      hide Chain;
      forall i | 0 <= i < |table|
        ensures Below(table[i].List(active), POOL_N)
      {
        assert forall k :: 0 <= k < |table[i].List(active)| ==> table[i].List(active)[k] in table[i].List(active);
      }
    }

    /** One node of the message pass: what it adds to the wire, and whether it was sent something. */
    method PassNode(i: nat, ghost was: Pool) returns (sent: seq<DataFrame>, mark: bool)
      requires Valid() && i < nodesN && i < |was.table| && Value() == PassStep(was, i)
      requires AllBelow(was.table, was.active, contents.Length)
      modifies this`freeHead, this`avail, this`free, this`table, this`places, next, nodes
      ensures Valid() && Value() == PassStep(was, i + 1)
      ensures PassWire(was, contents[..], i) + sent == PassWire(was, contents[..], i + 1)
      ensures PassMarks(was, i) + [mark] == PassMarks(was, i + 1)
    {
      hide Valid, PassStep, PassWire, PassMarks, DrainStep, Wire, AllBelow, Below;
      PassOne(was, contents[..], i);
      sent := DrainNode(i);
      mark := sent != [];
    }

    /** The message pass of a cycle, and which nodes were sent something. */
    method MessagePass() returns (wire: seq<DataFrame>, marked: seq<bool>)
      requires Valid()
      modifies this`freeHead, this`avail, this`free, this`table, this`places, next, nodes
      ensures Valid() && Value() == PassStep(old(Value()), old(nodesN)) && nodesN == old(nodesN)
      ensures AllBelow(old(table), active, POOL_N) && wire == PassWire(old(Value()), contents[..], old(nodesN))
      ensures marked == PassMarks(old(Value()), old(nodesN))
    {
      hide Valid, PassStep, PassWire, PassMarks, AllBelow;
      Sizes();
      ghost var was := Value();
      ListsBelow();
      PassNone(was, contents[..]);
      wire, marked := [], [];
      var i := 0;
      while i < nodesN
        invariant i <= nodesN == |was.table| && Valid() && Value() == PassStep(was, i)
        invariant wire == PassWire(was, contents[..], i) && marked == PassMarks(was, i)
      {
        var sent, mark := PassNode(i, was);
        wire := wire + sent;
        marked := marked + [mark];
        i := i + 1;
      }
    }

    /** Puts the buffers of a private chain back, as after a rebuild. */
    method RecoverChain(head: int, ghost s: seq<nat>)
      requires Valid() && Chain(next[..], head, s) && forall b :: b in s ==> Private(b)
      modifies this`freeHead, this`avail, this`free, this`places, next
      ensures Valid() && Value() == old(Value()).(free := Pushed(s, old(free)))
    {
      var p := head;
      ghost var rest: seq<nat> := s;
      hide Valid, Pushed;
      while p != NIL
        invariant Valid() && Chain(next[..], p, rest) && forall b :: b in rest ==> Private(b)
        invariant Value() == old(Value()).(free := free) && Pushed(rest, free) == Pushed(s, old(free))
        decreases |rest|
      {
        assert rest != [] && p == rest[0];
        hide Chain;
        PushedStep(rest, free);
        p := RecoverFirst(p, rest);
        rest := rest[1..];
      }
      PushedNone(free);
    }

    /** Moves the first buffer of one private chain onto the front of another. */
    method PushOne(p: nat, onto: int, ghost rest: seq<nat>, ghost done: seq<nat>) returns (nx: int)
      requires Valid() && rest != [] && Chain(next[..], p, rest) && Chain(next[..], onto, done)
      requires Private(p) && forall b :: b in rest ==> b !in done
      modifies next
      ensures Valid() && Chain(next[..], nx, rest[1..]) && Chain(next[..], p, [p] + done)
      ensures p == rest[0] && p !in rest[1..]
    {
      ChainTail(next[..], p, rest);
      ChainHeadOnce(next[..], p, rest);
      hide Chain;
      ghost var was := next[..];
      nx := next[p];
      Link(p, onto, done);
      ChainFrame(was, next[..], nx, rest[1..]);
    }

    /** Moves a private chain, element by element, onto the front of another. */
    method PushAll(head: int, onto: int, ghost s: seq<nat>, ghost os: seq<nat>) returns (res: int)
      requires Valid() && Chain(next[..], head, s) && Chain(next[..], onto, os)
      requires forall b :: b in s ==> Private(b) && b !in os
      modifies next
      ensures Valid() && Chain(next[..], res, Pushed(s, os))
    {
      var p := head;
      res := onto;
      ghost var rest, done := s, os;
      while p != NIL
        invariant Chain(next[..], p, rest) && Chain(next[..], res, done)
        invariant Pushed(rest, done) == Pushed(s, os)
        invariant forall b :: b in rest ==> Private(b) && b !in done
        invariant Valid()
        decreases |rest|
      {
        assert rest != [] && p == rest[0];
        hide Chain, Valid;
        var nx := PushOne(p, res, rest, done);
        PushedStep(rest, done);
        res := p;
        p := nx;
        done := [rest[0]] + done;
        rest := rest[1..];
      }
      assert Pushed([], done) == done;
    }

    /** Shifts the records with larger addresses up by one and tells where the gap is. */
    method ShiftAbove(addr: byte, n: nat) returns (j: nat)
      requires n < nodes.Length
      modifies nodes
      ensures j <= n && (j > 0 ==> old(nodes[j - 1]).addr <= addr)
      ensures forall k :: 0 <= k < j ==> nodes[k] == old(nodes[k])
      ensures forall k :: j <= k < n ==> nodes[k + 1] == old(nodes[k]) && old(nodes[k]).addr > addr
    {
      j := n;
      while j > 0 && nodes[j - 1].addr > addr
        invariant j <= n
        invariant forall k :: 0 <= k < j ==> nodes[k] == old(nodes[k])
        invariant forall k :: j <= k < n ==> nodes[k + 1] == old(nodes[k]) && old(nodes[k]).addr > addr
      {
        nodes[j] := nodes[j - 1];
        j := j - 1;
      }
    }

    /** One insertion into the records of a table. */
    method InsertRec(e: Node<nat>, ghost t: seq<Node<nat>>)
      requires nodes.Length == ROSTER_MAX && nodesN == |t| < ROSTER_MAX
      requires forall k :: 0 <= k < nodesN ==> nodes[k] == FreshRec(t[k])
      modifies this`nodesN, nodes
      ensures nodesN == |t| + 1
      ensures forall k :: 0 <= k < nodesN ==> nodes[k] == FreshRec(Insert<nat>(t, e)[k])
    {
      hide Insert, FreshRec;
      assert forall k :: 0 <= k < |t| ==> nodes[k].addr == t[k].addr;
      var j := ShiftAbove(e.addr, nodesN);
      nodes[j] := FreshRec(e);
      nodesN := nodesN + 1;
      ghost var r := Insert<nat>(t, e);
      InsertAt(t, e, j);
      Spliced(t, e, j, r);
      forall k | 0 <= k < nodesN
        ensures nodes[k] == FreshRec(r[k])
      {
        assert k > j ==> nodes[(k - 1) + 1] == FreshRec(t[k - 1]);
      }
    }

    static lemma Spliced(t: seq<Node<nat>>, e: Node<nat>, j: nat, r: seq<Node<nat>>)
      requires j <= |t| && r == t[..j] + [e] + t[j..]
      ensures forall k :: 0 <= k <= |t| ==> r[k] == if k < j then t[k] else if k == j then e else t[k - 1]
    {
      forall k | 0 <= k <= |t|
        ensures r[k] == if k < j then t[k] else if k == j then e else t[k - 1]
      {
        if k > j {
          assert t[j..][k - j - 1] == t[k - 1];
        }
      }
    }

    /** The insertion sort of the roster by address, into the node records. */
    method BuildTable(roster: seq<Slave>)
      requires nodes.Length == ROSTER_MAX && |roster| <= ROSTER_MAX
      modifies this`nodesN, nodes
      ensures nodesN == |roster|
      ensures forall k :: 0 <= k < nodesN ==> nodes[k] == FreshRec(Build<nat>(roster)[k])
    {
      hide Insert;
      nodesN := 0;
      for i := 0 to |roster|
        invariant nodesN == i
        invariant forall k :: 0 <= k < i ==> nodes[k] == FreshRec(Build<nat>(roster[..i])[k])
      {
        InsertRec(FreshNode(roster[i]), Build<nat>(roster[..i]));
        assert roster[..i + 1][..i] == roster[..i];
      }
      assert roster[..|roster|] == roster;
    }

    method DetachNode(i: nat, onto: int, ghost os: seq<nat>) returns (res: int)
      requires Valid() && i < nodesN
      requires Chain(next[..], onto, os) && forall b :: b in os ==> Private(b)
      modifies this`table, this`places, next, nodes
      ensures Valid() && free == old(free) && nodesN == old(nodesN)
      ensures forall k :: 0 <= k < nodesN && k != i ==> table[k] == old(table)[k]
      ensures var n, all := old(table[i]), Pushed(old(table[i].list1), Pushed(old(table[i].list0), os));
        Chain(next[..], res, all) && forall b :: b in all ==> Private(b)
    {
      ghost var n := table[i];
      var h0 := TakeHead(i, false);
      res := PushAll(h0, onto, n.list0, os);
      ghost var mid := Pushed(n.list0, os);
      ReversedMembers(n.list0);
      ReversedMembers(n.list1);
      assert table[i].List(true) == n.list1;
      var h1 := TakeHead(i, true);
      res := PushAll(h1, res, n.list1, mid);
    }

    /** Detaches every queued buffer into one chain. */
    method DetachAll() returns (orphans: int)
      requires Valid()
      modifies this`table, this`places, next, nodes
      ensures Valid() && free == old(free) && nodesN == old(nodesN)
      ensures Chain(next[..], orphans, Pushed(AllQueued(old(table)), []))
      ensures forall b :: b in Pushed(AllQueued(old(table)), []) ==> Private(b)
    {
      orphans := NIL;
      ghost var was, os: seq<nat> := table, [];
      assert nodesN == |was| && was[..0] == [] && Pushed<nat>(AllQueued<nat>([]), []) == [];
      hide Pushed, AllQueued;
      for i := 0 to nodesN
        invariant Valid() && free == old(free) && nodesN == |was|
        invariant os == Pushed(AllQueued(was[..i]), [])
        invariant Chain(next[..], orphans, os) && forall b :: b in os ==> Private(b)
        invariant forall k :: i <= k < nodesN ==> table[k] == was[k]
      {
        assert i < nodesN == |table| && table[i] == was[i];
        hide Chain, Valid;
        orphans := DetachNode(i, orphans, os);
        os := Pushed(was[i].list1, Pushed(was[i].list0, os));
        PushedNext(was, i);
      }
      assert was[..nodesN] == was;
    }

    /** Detaches every queued buffer and rebuilds the table from the roster. */
    method Rebuild(roster: seq<Slave>) returns (orphans: int)
      requires Valid() && |roster| <= ROSTER_MAX
      modifies this`nodesN, this`table, this`places, next, nodes
      ensures Valid() && Value() == RebuildStep(old(Value()), roster)
      ensures Chain(next[..], orphans, Pushed(AllQueued(old(table)), []))
      ensures forall b :: b in Pushed(AllQueued(old(table)), []) ==> Private(b)
    {
      hide Valid, Chain, Pushed, AllQueued;
      orphans := DetachAll();
      Reset(roster);
    }

    /** The table part of a rebuild, once every list has been detached. */
    method Reset(roster: seq<Slave>)
      requires Valid() && |roster| <= ROSTER_MAX
      modifies this`nodesN, this`table, nodes
      ensures Valid() && table == Build<nat>(roster)
    {
      hide Build, Chain;
      BuildTable(roster);
      table := Build<nat>(roster);
      FreshMatches(roster);
    }

    lemma FreshMatches(roster: seq<Slave>)
      ensures forall k :: 0 <= k < |roster| ==>
        RecMatches(FreshRec(Build<nat>(roster)[k]), Build<nat>(roster)[k])
        && Build<nat>(roster)[k].list0 == [] && Build<nat>(roster)[k].list1 == []
    {
      BuildFresh<nat>(roster);
      hide Build;
      assert forall k :: 0 <= k < |roster| ==> Build<nat>(roster)[k] in Build<nat>(roster);
    }
  }

  function FreshRec(n: Node<nat>): (r: NodeRec)
    ensures r.addr == n.addr
  {
    NodeRec(n.addr, n.enabled, n.dead, n.miss, NIL, NIL)
  }

  lemma {:induction false} InsertAt(t: seq<Node<nat>>, e: Node<nat>, j: nat)
    requires j <= |t| && forall k :: j <= k < |t| ==> t[k].addr > e.addr
    requires j > 0 ==> t[j - 1].addr <= e.addr
    ensures Insert<nat>(t, e) == t[..j] + [e] + t[j..]
    decreases |t|
  {
    if j < |t| {
      InsertAt(t[..|t| - 1], e, j);
    }
  }

  lemma WireStep(dead: bool, addr: byte, bs: seq<nat>, before: seq<DataFrame>, contents: seq<Content>)
    requires bs != [] && Below(bs, |contents|)
    ensures bs[0] < |contents| && Below(bs[1..], |contents|)
    ensures before + Wire(dead, addr, bs, contents) ==
      (if dead then before else before + [DataFrame(addr, contents[bs[0]])]) + Wire(dead, addr, bs[1..], contents)
  {
    var f := DataFrame(addr, contents[bs[0]]);
    assert !dead ==> Frames(addr, bs, contents) == [f] + Frames(addr, bs[1..], contents);
    hide Frames;
    assert before + ([f] + Wire(dead, addr, bs[1..], contents)) == (before + [f]) + Wire(dead, addr, bs[1..], contents);
  }

  lemma WireSome(dead: bool, addr: byte, bs: seq<nat>, contents: seq<Content>)
    requires Below(bs, |contents|)
    ensures Wire(dead, addr, bs, contents) != [] <==> !dead && bs != []
  {
  }

  lemma PassNone(p: Pool, contents: seq<Content>)
    requires AllBelow(p.table, p.active, |contents|)
    ensures PassStep(p, 0) == p && PassWire(p, contents, 0) == [] && PassMarks(p, 0) == []
  {
  }

  lemma PassOne(p: Pool, contents: seq<Content>, i: nat)
    requires i < |p.table| && AllBelow(p.table, p.active, |contents|)
    ensures var e := p.table[i];
      && PassStep(p, i + 1) == DrainStep(PassStep(p, i), i) && PassStep(p, i).table[i] == e
      && PassStep(p, i).active == p.active && Below(e.List(p.active), |contents|)
      && PassWire(p, contents, i + 1) == PassWire(p, contents, i) + Wire(e.dead, e.addr, e.List(p.active), contents)
      && PassMarks(p, i + 1) == PassMarks(p, i) + [Wire(e.dead, e.addr, e.List(p.active), contents) != []]
  {
    var e := p.table[i];
    PassUnfolds(p, contents, i);
    hide PassStep, PassWire;
    WireSome(e.dead, e.addr, e.List(p.active), contents);
    hide Wire;
  }

  lemma PassUnfolds(p: Pool, contents: seq<Content>, i: nat)
    requires i < |p.table| && AllBelow(p.table, p.active, |contents|)
    ensures var e := p.table[i];
      && PassStep(p, i + 1) == DrainStep(PassStep(p, i), i)
      && PassWire(p, contents, i + 1) == PassWire(p, contents, i) + Wire(e.dead, e.addr, e.List(p.active), contents)
  {
    hide DrainStep, Wire, Below;
  }

  lemma WireNone(dead: bool, addr: byte, contents: seq<Content>)
    ensures Below([], |contents|) && Wire(dead, addr, [], contents) == []
  {
  }

  lemma PushedNone<T>(onto: seq<T>)
    ensures Pushed([], onto) == onto
  {
  }

  lemma PushedStep<T>(s: seq<T>, onto: seq<T>)
    requires s != []
    ensures Pushed(s[1..], [s[0]] + onto) == Pushed(s, onto)
  {
  }

  lemma {:induction false} ReversedConcat<T>(a: seq<T>, b: seq<T>)
    ensures Reversed(a + b) == Reversed(b) + Reversed(a)
  {
    if a == [] {
      assert a + b == b;
    } else {
      ReversedConcat(a[1..], b);
      assert (a + b)[1..] == a[1..] + b;
    }
  }

  lemma {:induction false} ReversedMembers<T>(s: seq<T>)
    ensures forall x :: x in Reversed(s) <==> x in s
  {
    if s != [] {
      ReversedMembers(s[1..]);
    }
  }

  lemma PushedNext(t: seq<Node<nat>>, i: nat)
    requires i < |t|
    ensures Pushed(AllQueued(t[..i + 1]), []) == Pushed(t[i].list1, Pushed(t[i].list0, Pushed(AllQueued(t[..i]), [])))
  {
    hide Pushed, AllQueued;
    PushedAllQueued(t[..i + 1]);
    assert t[..i + 1][..i] == t[..i];
  }

  lemma PushedAllQueued(t: seq<Node<nat>>)
    requires t != []
    ensures var n := t[|t| - 1];
      Pushed(AllQueued(t), []) == Pushed(n.list1, Pushed(n.list0, Pushed(AllQueued(t[..|t| - 1]), [])))
  {
    var n, init := t[|t| - 1], AllQueued(t[..|t| - 1]);
    ReversedConcat(init + n.list0, n.list1);
    ReversedConcat(init, n.list0);
  }
}
