/** The roster of commissioned slaves and the node table the bus engine builds from it. */
module BusTable {
  import opened Bytes

  const ROSTER_MAX := 16

  datatype Liveness = Unknown | Alive | Dead

  datatype Slave = Slave(addr: byte, flags: byte, state: Liveness, misses: byte, summary: byte,
                         announcedState: Liveness, announcedSummary: byte)

  /** A node with its two transmit lists; the one at the active index is drained by the cycle, the
      other is filled by producers. New messages go on the front of a list. */
  datatype Node<T> = Node(addr: byte, enabled: bool, dead: bool, miss: byte, list0: seq<T>, list1: seq<T>) {
    function List(which: bool): seq<T> { if which then list1 else list0 }

    function WithList(which: bool, s: seq<T>): (n: Node<T>)
      ensures n.List(which) == s && n.List(!which) == List(!which)
    {
      if which then this.(list1 := s) else this.(list0 := s)
    }
  }

  function FreshNode<T>(s: Slave): Node<T> {
    Node(s.addr, s.flags % 2 == 1, false, 0, [], [])
  }

  /** Insertion by address behind the nodes that are not larger. */
  function Insert<T>(nodes: seq<Node<T>>, e: Node<T>): (res: seq<Node<T>>)
    ensures |res| == |nodes| + 1
  {
    if nodes == [] || nodes[|nodes| - 1].addr <= e.addr then nodes + [e]
    else Insert(nodes[..|nodes| - 1], e) + [nodes[|nodes| - 1]]
  }

  function Build<T>(roster: seq<Slave>): (res: seq<Node<T>>)
    ensures |res| == |roster|
  {
    if roster == [] then [] else Insert(Build(roster[..|roster| - 1]), FreshNode(roster[|roster| - 1]))
  }

  function IndexFrom<T>(nodes: seq<Node<T>>, addr: byte, i: nat): (r: int)
    requires i <= |nodes|
    ensures -1 <= r < |nodes|
    ensures r >= 0 ==> i <= r && nodes[r].addr == addr
    ensures r < 0 ==> forall k :: i <= k < |nodes| ==> nodes[k].addr != addr
    decreases |nodes| - i
  {
    if i == |nodes| then -1 else if nodes[i].addr == addr then i else IndexFrom(nodes, addr, i + 1)
  }

  function IndexOf<T>(nodes: seq<Node<T>>, addr: byte): int { IndexFrom(nodes, addr, 0) }

  ghost predicate Sorted<T>(nodes: seq<Node<T>>) {
    forall i, j :: 0 <= i < j < |nodes| ==> nodes[i].addr <= nodes[j].addr
  }

  lemma {:induction false} InsertSorted<T>(nodes: seq<Node<T>>, e: Node<T>)
    requires Sorted(nodes)
    ensures Sorted(Insert(nodes, e))
  {
    if !(nodes == [] || nodes[|nodes| - 1].addr <= e.addr) {
      var init, last := nodes[..|nodes| - 1], nodes[|nodes| - 1];
      InsertSorted(init, e);
      InsertBelow(init, e, last.addr);
    }
  }

  lemma {:induction false} InsertAdds<T>(nodes: seq<Node<T>>, e: Node<T>)
    ensures multiset(Insert(nodes, e)) == multiset(nodes) + multiset{e}
  {
    if !(nodes == [] || nodes[|nodes| - 1].addr <= e.addr) {
      var init, last := nodes[..|nodes| - 1], nodes[|nodes| - 1];
      InsertAdds(init, e);
      assert nodes == init + [last];
    }
  }

  lemma {:induction false} InsertBelow<T>(nodes: seq<Node<T>>, e: Node<T>, top: byte)
    requires e.addr <= top && forall i :: 0 <= i < |nodes| ==> nodes[i].addr <= top
    ensures forall i :: 0 <= i < |Insert(nodes, e)| ==> Insert(nodes, e)[i].addr <= top
  {
    if !(nodes == [] || nodes[|nodes| - 1].addr <= e.addr) {
      InsertBelow(nodes[..|nodes| - 1], e, top);
    }
  }

  function FreshNodes<T>(roster: seq<Slave>): seq<Node<T>> {
    seq(|roster|, i requires 0 <= i < |roster| => Node(roster[i].addr, roster[i].flags % 2 == 1, false, 0, [], []))
  }

  /** The node table is the roster in address order, every node live with empty lists. */
  lemma {:induction false} BuildLaw<T>(roster: seq<Slave>)
    ensures Sorted<T>(Build(roster))
    ensures multiset(Build<T>(roster)) == multiset(FreshNodes<T>(roster))
  {
    if roster != [] {
      var init, last := roster[..|roster| - 1], roster[|roster| - 1];
      BuildLaw<T>(init);
      InsertSorted<T>(Build(init), FreshNode(last));
      InsertAdds<T>(Build(init), FreshNode(last));
      assert FreshNodes<T>(roster) == FreshNodes<T>(init) + [FreshNode(last)];
    }
  }

  lemma {:induction false} BuildFresh<T>(roster: seq<Slave>)
    ensures forall n :: n in Build<T>(roster) ==> !n.dead && n.miss == 0 && n.list0 == [] && n.list1 == []
  {
    BuildLaw<T>(roster);
    forall n | n in Build<T>(roster)
      ensures !n.dead && n.miss == 0 && n.list0 == [] && n.list1 == []
    {
      assert n in multiset(Build<T>(roster));
      assert n in multiset(FreshNodes<T>(roster));
      assert n in FreshNodes<T>(roster);
    }
  }

  /** Everything queued on a node table, node by node. */
  function AllQueued<T>(nodes: seq<Node<T>>): seq<T> {
    if nodes == [] then []
    else AllQueued(nodes[..|nodes| - 1]) + nodes[|nodes| - 1].list0 + nodes[|nodes| - 1].list1
  }

  function Reversed<T>(s: seq<T>): seq<T> {
    if s == [] then [] else Reversed(s[1..]) + [s[0]]
  }

  /** The result of pushing s, element by element, on the front of `onto`. */
  function Pushed<T>(s: seq<T>, onto: seq<T>): seq<T> {
    Reversed(s) + onto
  }
}
