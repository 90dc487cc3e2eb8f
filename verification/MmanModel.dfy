/** The address manager (lib/mman.c): nodes tile a region. */
module MmanModel {
  // Each node is followed by the gap it keeps track of. The two red-black trees are given by their
  // in-order sequences; searches are proved for every tree with that sequence.

  import opened Lists
  import opened SearchTree

  /** The node inside the manager itself: it holds no memory, only the first gap. */
  const DUMMY: Id := 0

  datatype Node = Node(addr: nat, size: nat, free: nat)

  type Nodes = map<Id, Node>

  /** Where the next node starts. */
  function Fin(n: Node): nat { n.addr + n.size + n.free }

  /** mman_node_end: the last address of the node. */
  function End(n: Node): int { n.addr - 1 + n.size }

  predicate Contains(n: Node, a: nat) { n.addr <= a < n.addr + n.size }

  // ----- Tiling -----

  ghost predicate Tiled(nodes: Nodes, order: seq<Id>, limit: nat) {
    && (forall i | 0 <= i < |order| :: order[i] in nodes)
    && (forall i {:trigger JoinedAt(nodes, order, i)} | 0 <= i < |order| - 1 :: JoinedAt(nodes, order, i))
    && (|order| > 0 ==> Fin(nodes[order[|order| - 1]]) == limit)
  }

  ghost predicate JoinedAt(nodes: Nodes, order: seq<Id>, i: int) {
    0 <= i < |order| - 1 && order[i] in nodes && order[i + 1] in nodes
      && Fin(nodes[order[i]]) == nodes[order[i + 1]].addr
  }

  lemma {:induction false} Apart(nodes: Nodes, order: seq<Id>, limit: nat, i: nat, j: nat)
    requires Tiled(nodes, order, limit) && i < j < |order|
    ensures Fin(nodes[order[i]]) <= nodes[order[j]].addr && Fin(nodes[order[j]]) <= limit
    decreases |order| - i, |order| - j
  {
    assert JoinedAt(nodes, order, i);
    if i + 1 < j { Apart(nodes, order, limit, i + 1, j); }
    if j + 1 < |order| {
      assert JoinedAt(nodes, order, j);
      Apart(nodes, order, limit, i, j + 1);
    }
  }

  /** Everything before a node ends at or before it, everything after it starts at or after its gap. */
  lemma {:induction false} AllApart(nodes: Nodes, order: seq<Id>, limit: nat, mid: nat)
    requires Tiled(nodes, order, limit) && mid < |order|
    ensures forall i | 0 <= i < mid :: Fin(nodes[order[i]]) <= nodes[order[mid]].addr
    ensures forall i | mid < i < |order| :: Fin(nodes[order[mid]]) <= nodes[order[i]].addr
  {
    forall i | 0 <= i < mid
      ensures Fin(nodes[order[i]]) <= nodes[order[mid]].addr
    {
      Apart(nodes, order, limit, i, mid);
    }
    forall i | mid < i < |order|
      ensures Fin(nodes[order[mid]]) <= nodes[order[i]].addr
    {
      Apart(nodes, order, limit, mid, i);
    }
  }

  ghost predicate Laid(nodes: Nodes, order: seq<Id>, start: nat, limit: nat) {
    && NoDup(order) && |order| > 0 && order[0] == DUMMY && (forall x :: x in order <==> x in nodes)
    && Tiled(nodes, order, limit)
    && nodes[DUMMY].addr == start && nodes[DUMMY].size == 0
    && (forall x | x in nodes && x != DUMMY :: nodes[x].size > 0)
  }

  /** No address belongs to two nodes, and every node lies in the region. */
  lemma {:induction false} NodesDisjoint(nodes: Nodes, order: seq<Id>, start: nat, limit: nat, x: Id, y: Id, a: nat)
    requires Laid(nodes, order, start, limit) && x in nodes && y in nodes && Contains(nodes[x], a)
      && Contains(nodes[y], a)
    ensures x == y && start <= a < limit
  {
    var i :| 0 <= i < |order| && order[i] == x;
    var j :| 0 <= j < |order| && order[j] == y;
    if i < j { Apart(nodes, order, limit, i, j); }
    if j < i { Apart(nodes, order, limit, j, i); }
    if 0 < i { Apart(nodes, order, limit, 0, i); }
  }

  /** The node's gap grows or shrinks at its end, or a node takes part of it: the tiles still join. */
  lemma {:induction false} TiledInsert(nodes: Nodes, order: seq<Id>, limit: nat, i: nat, id: Id, out: Node, node: Node)
    requires Tiled(nodes, order, limit) && NoDup(order) && i < |order| && id !in order
    requires out.addr == nodes[order[i]].addr && Fin(out) == node.addr && Fin(node) == Fin(nodes[order[i]])
    ensures Tiled(nodes[order[i] := out][id := node], order[..i + 1] + [id] + order[i + 1..], limit)
  {
    var nodes', order' := nodes[order[i] := out][id := node], order[..i + 1] + [id] + order[i + 1..];
    forall k | 0 <= k < |order'| ensures order'[k] in nodes' {}
    forall k | 0 <= k < |order'| - 1 ensures JoinedAt(nodes', order', k) {
      if k < i { assert JoinedAt(nodes, order, k); }
      if k > i { assert k - 1 < |order| - 1 ==> JoinedAt(nodes, order, k - 1); }
    }
  }

  lemma {:induction false} TiledRemove(nodes: Nodes, order: seq<Id>, limit: nat, i: nat, prev: Node)
    requires Tiled(nodes, order, limit) && NoDup(order) && 0 < i < |order|
    requires prev.addr == nodes[order[i - 1]].addr && Fin(prev) == Fin(nodes[order[i]])
    ensures Tiled(nodes[order[i - 1] := prev] - {order[i]}, order[..i] + order[i + 1..], limit)
  {
    var nodes', order' := nodes[order[i - 1] := prev] - {order[i]}, order[..i] + order[i + 1..];
    forall k | 0 <= k < |order'| ensures order'[k] in nodes' {}
    forall k | 0 <= k < |order'| - 1 ensures JoinedAt(nodes', order', k) {
      assert JoinedAt(nodes, order, if k < i then k else k + 1);
      if k == i - 1 { assert JoinedAt(nodes, order, i); }
    }
  }

  /** Two neighbours trade addresses at their border. */
  lemma {:induction false} TiledShift(nodes: Nodes, order: seq<Id>, limit: nat, i: nat, prev: Node, node: Node)
    requires Tiled(nodes, order, limit) && NoDup(order) && 0 < i < |order|
    requires prev.addr == nodes[order[i - 1]].addr && Fin(prev) == node.addr && Fin(node) == Fin(nodes[order[i]])
    ensures Tiled(nodes[order[i - 1] := prev][order[i] := node], order, limit)
  {
    var nodes' := nodes[order[i - 1] := prev][order[i] := node];
    forall k | 0 <= k < |order| - 1 ensures JoinedAt(nodes', order, k) { assert JoinedAt(nodes, order, k); }
  }

  // ----- The gaps, smallest first -----

  ghost predicate Ranked(nodes: Nodes, gaps: seq<Id>) {
    && NoDup(gaps) && (forall x :: x in gaps <==> x in nodes && nodes[x].free > 0)
    && Ascending(nodes, gaps)
  }

  ghost predicate Ascending(nodes: Nodes, gaps: seq<Id>) {
    forall i, j ::
      0 <= i < j < |gaps| ==> gaps[i] in nodes && gaps[j] in nodes && nodes[gaps[i]].free <= nodes[gaps[j]].free
  }

  /** rb_insert into the free tree: after every gap that is not larger. */
  function Ranking(nodes: Nodes, gaps: seq<Id>, x: Id, free: nat): seq<Id>
    requires forall i | 0 <= i < |gaps| :: gaps[i] in nodes
  {
    if gaps == [] || nodes[gaps[|gaps| - 1]].free <= free then gaps + [x]
    else Ranking(nodes, gaps[..|gaps| - 1], x, free) + [gaps[|gaps| - 1]]
  }

  lemma {:induction false} RankingElems(nodes: Nodes, gaps: seq<Id>, x: Id, free: nat)
    requires (forall i | 0 <= i < |gaps| :: gaps[i] in nodes) && NoDup(gaps) && x !in gaps
    ensures NoDup(Ranking(nodes, gaps, x, free)) && forall y ::
      y in Ranking(nodes, gaps, x, free) <==> y in gaps || y == x
  {
    if !(gaps == [] || nodes[gaps[|gaps| - 1]].free <= free) {
      assert gaps == gaps[..|gaps| - 1] + [gaps[|gaps| - 1]];
      RankingElems(nodes, gaps[..|gaps| - 1], x, free);
      assert gaps[|gaps| - 1] !in gaps[..|gaps| - 1];
    }
  }

  lemma {:induction false} RankingAscends(nodes: Nodes, gaps: seq<Id>, x: Id)
    requires Ascending(nodes, gaps) && (forall i | 0 <= i < |gaps| :: gaps[i] in nodes) && NoDup(gaps) && x !in gaps
      && x in nodes
    ensures Ascending(nodes, Ranking(nodes, gaps, x, nodes[x].free))
  {
    var free := nodes[x].free;
    if !(gaps == [] || nodes[gaps[|gaps| - 1]].free <= free) {
      var front, last := gaps[..|gaps| - 1], gaps[|gaps| - 1];
      RankingAscends(nodes, front, x);
      RankingElems(nodes, front, x, free);
      var r := Ranking(nodes, front, x, free);
      forall y | y in r ensures y in nodes && nodes[y].free <= nodes[last].free {
        if y in front { var k :| 0 <= k < |front| && front[k] == y; assert gaps[k] == y; }
      }
    }
  }

  lemma {:induction false} WithoutAscends(nodes: Nodes, gaps: seq<Id>, x: Id)
    requires Ascending(nodes, gaps) && NoDup(gaps)
    ensures Ascending(nodes, Without(gaps, x))
  {
    if gaps != [] && gaps[0] != x {
      var rest := gaps[1..];
      WithoutAscends(nodes, rest, x);
      WithoutElems(rest, x);
      var r := Without(rest, x);
      forall y | y in r ensures y in nodes && gaps[0] in nodes && nodes[gaps[0]].free <= nodes[y].free {
        var k :| 0 <= k < |rest| && rest[k] == y;
        assert gaps[k + 1] == y;
      }
    }
  }
}
