/** The address manager as it runs. */
module Mman {
  import opened Arith
  import opened Lists
  import opened MmanModel
  import opened SearchTree

  predicate Hit(n: Node, a: nat) { n.addr <= a < End(n) }

  /** A node that contains the address is found if and only if the address is not its last one. */
  lemma {:induction false} LookupExact(nodes: Nodes, order: seq<Id>, start: nat, limit: nat, a: nat, r: Option<Id>,
    x: Id)
    requires Laid(nodes, order, start, limit) && x in nodes && Contains(nodes[x], a)
    requires r.Some? ==> r.value in nodes && Hit(nodes[r.value], a)
    requires r.None? ==> forall y | y in nodes :: !Hit(nodes[y], a)
    ensures r == Some(x) <==> a != End(nodes[x])
  {
    if r.Some? { NodesDisjoint(nodes, order, start, limit, x, r.value, a); }
  }

  lemma {:induction false} HitSide(nodes: Nodes, order: seq<Id>, limit: nat, mid: nat, a: nat, i: nat)
    requires Tiled(nodes, order, limit) && mid < |order| && i < |order| && i != mid && Hit(nodes[order[i]], a)
    ensures i < mid <==> a < nodes[order[mid]].addr
  {
    if i < mid { Apart(nodes, order, limit, i, mid); } else { Apart(nodes, order, limit, mid, i); }
  }

  /** mman_lookup, over whatever shape the tree of nodes has. */
  method Lookup(nodes: Nodes, ghost order: seq<Id>, ghost limit: nat, tree: Tree, a: nat) returns (r: Option<Id>)
    requires Tiled(nodes, order, limit) && (forall x | x in nodes :: x in order) && Inorder(tree) == order
    ensures r.Some? ==> r.value in nodes && Hit(nodes[r.value], a)
    ensures r.None? ==> forall x | x in nodes :: !Hit(nodes[x], a)
  {
    var t := tree;
    ghost var lo, hi: nat := 0, |order|;
    while t.Bin?
      invariant Stretch(t, order, lo, hi)
      invariant forall i | 0 <= i < |order| && Hit(nodes[order[i]], a) :: lo <= i < hi
      decreases t
    {
      ghost var mid := Descend(t, order, lo, hi);
      forall i | 0 <= i < |order| && i != mid && Hit(nodes[order[i]], a)
        ensures i < mid <==> a < nodes[order[mid]].addr
      {
        HitSide(nodes, order, limit, mid, a, i);
      }
      if a < nodes[t.id].addr {
        t, hi := t.left, mid;
      } else if nodes[t.id].size > 0 && a < End(nodes[t.id]) {
        return Some(t.id);
      } else {
        t, lo := t.right, mid + 1;
      }
    }
    return None;
  }

  predicate EndsAfter(n: Node, a: nat) { End(n) > a }

  ghost predicate NoneBefore(nodes: Nodes, order: seq<Id>, a: nat, lo: nat) {
    lo <= |order| && forall k | 0 <= k < lo :: order[k] in nodes && !EndsAfter(nodes[order[k]], a)
  }

  /** The search of mman_first_node: the first node that ends after the address. */
  method FirstAfter(nodes: Nodes, ghost order: seq<Id>, ghost limit: nat, tree: Tree, a: nat)
    returns (r: Option<Id>, ghost i: nat)
    requires Tiled(nodes, order, limit) && Inorder(tree) == order
    ensures NoneBefore(nodes, order, a, i)
    ensures r.None? ==> i == |order|
    ensures r.Some? ==> i < |order| && order[i] == r.value && EndsAfter(nodes[r.value], a)
  {
    var t := tree;
    ghost var lo, hi: nat := 0, |order|;
    r := None;
    while t.Bin?
      invariant Stretch(t, order, lo, hi) && NoneBefore(nodes, order, a, lo)
      invariant if r.None? then hi == |order| else hi < |order| && order[hi] == r.value && EndsAfter(nodes[r.value], a)
      decreases t
    {
      ghost var mid := Descend(t, order, lo, hi);
      AllApart(nodes, order, limit, mid);
      if End(nodes[t.id]) > a {
        if nodes[t.id].addr <= a {
          return Some(t.id), mid;
        }
        r, t, hi := Some(t.id), t.left, mid;
      } else {
        t, lo := t.right, mid + 1;
      }
    }
    i := hi;
  }

  /** mman_first_node */
  method FirstNode(nodes: Nodes, ghost order: seq<Id>, ghost limit: nat, tree: Tree, a: nat,
    size: nat) returns (r: Option<Id>, ghost i: nat)
    requires Tiled(nodes, order, limit) && Inorder(tree) == order
    ensures NoneBefore(nodes, order, a, i)
    ensures r.Some? ==>
      i < |order| && order[i] == r.value && EndsAfter(nodes[r.value], a) && nodes[r.value].addr < a + size
    ensures r.None? && i < |order| ==> EndsAfter(nodes[order[i]], a) && nodes[order[i]].addr >= a + size
  {
    r, i := FirstAfter(nodes, order, limit, tree, a);
    if r.None? || nodes[r.value].addr > a - 1 + size {
      r := None;
    }
  }

  predicate Overlaps(n: Node, a: nat, size: nat) { n.size > 0 && n.addr < a + size && a < n.addr + n.size }

  ghost predicate FirstOverlap(nodes: Nodes, order: seq<Id>, a: nat, size: nat, i: nat) {
    && i < |order| && order[i] in nodes && Overlaps(nodes[order[i]], a, size)
    && forall k | 0 <= k < i :: order[k] in nodes && !Overlaps(nodes[order[k]], a, size)
  }

  /**
   When some node overlaps the range, mman_first_node finds the first such node if and only if
   that node does not overlap it with its last address alone.
   */
  lemma {:induction false} FirstNodeExact(nodes: Nodes, order: seq<Id>, start: nat, limit: nat, a: nat, size: nat,
    r: Option<Id>, i: nat, j: nat)
    requires Laid(nodes, order, start, limit) && FirstOverlap(nodes, order, a, size, j) && start <= a
    requires NoneBefore(nodes, order, a, i)
    requires r.Some? ==>
      i < |order| && order[i] == r.value && EndsAfter(nodes[r.value], a) && nodes[r.value].addr < a + size
    requires r.None? && i < |order| ==> EndsAfter(nodes[order[i]], a) && nodes[order[i]].addr >= a + size
    ensures r == Some(order[j]) <==> End(nodes[order[j]]) != a
  {
    if End(nodes[order[j]]) != a {
      assert EndsAfter(nodes[order[j]], a);
      assert i <= j;
      if i < j {
        Apart(nodes, order, limit, i, j);
        assert false;
      }
    }
  }

  // ----- Searching for free space -----

  function GapStart(n: Node): nat { n.addr + n.size }

  /** The gap holds size addresses from its first aligned one. */
  predicate Fits(n: Node, size: nat, align: nat)
    requires align > 0
  {
    AlignUp(GapStart(n), align) + size <= Fin(n)
  }

  ghost predicate GapsAligned(nodes: Nodes, gaps: seq<Id>, align: nat)
    requires align > 0
  {
    forall x | x in gaps :: x in nodes && GapStart(nodes[x]) % align == 0
  }

  /**
   The search of mman_alloc in the tree of free space. What it returns fits; and if every gap
   starts aligned it is the smallest gap that is large enough, and nothing is returned only if
   there is none.
   */
  method BestGap(nodes: Nodes, ghost gaps: seq<Id>, tree: Tree, size: nat, align: nat) returns (r: Option<Id>)
    requires Ranked(nodes, gaps) && Inorder(tree) == gaps && align > 0 && size > 0
    ensures r.Some? ==> r.value in nodes && Fits(nodes[r.value], size, align)
    ensures GapsAligned(nodes, gaps, align) ==> (forall x | x in nodes && nodes[x].free >= size ::
      r.Some? && nodes[r.value].free <= nodes[x].free)
  {
    var t := tree;
    ghost var lo, hi: nat := 0, |gaps|;
    r := None;
    while t.Bin?
      invariant Stretch(t, gaps, lo, hi)
      invariant r.Some? ==> r.value in nodes && Fits(nodes[r.value], size, align)
      invariant forall i | 0 <= i < lo :: nodes[gaps[i]].free < size
      invariant GapsAligned(nodes, gaps, align) ==> (hi < |gaps| ==> r == Some(gaps[hi]))
      decreases t
    {
      ghost var mid := Descend(t, gaps, lo, hi);
      var n := nodes[t.id];
      if size > n.free {
        SmallerBefore(nodes, gaps, mid);
        t, lo := t.right, mid + 1;
      } else {
        AlignUpIs(GapStart(n), align);
        var pad := AlignUp(GapStart(n), align) - GapStart(n);
        if pad == 0 || n.free >= size + pad {
          r := Some(t.id);
          if n.free == size {
            return;
          }
        }
        t, hi := t.left, mid;
      }
    }
    if GapsAligned(nodes, gaps, align) { Smallest(nodes, gaps, size, lo, r); }
  }

  lemma {:induction false} SmallerBefore(nodes: Nodes, gaps: seq<Id>, mid: nat)
    requires Ascending(nodes, gaps) && mid < |gaps| && gaps[mid] in nodes
    ensures forall i | 0 <= i <= mid :: gaps[i] in nodes && nodes[gaps[i]].free <= nodes[gaps[mid]].free
  {}

  lemma {:induction false} Smallest(nodes: Nodes, gaps: seq<Id>, size: nat, lo: nat, r: Option<Id>)
    requires Ranked(nodes, gaps) && size > 0 && lo <= |gaps|
    requires forall i | 0 <= i < lo :: gaps[i] in nodes && nodes[gaps[i]].free < size
    requires lo < |gaps| ==> r == Some(gaps[lo])
    ensures forall x | x in nodes && nodes[x].free >= size ::
      r.Some? && r.value in nodes && nodes[r.value].free <= nodes[x].free
  {
    forall x | x in nodes && nodes[x].free >= size ensures r.Some? && r.value in nodes
      && nodes[r.value].free <= nodes[x].free {
      assert x in gaps;
      var i :| 0 <= i < |gaps| && gaps[i] == x;
      assert lo <= i;
    }
  }

  lemma {:induction false} GapSide(nodes: Nodes, order: seq<Id>, limit: nat, mid: nat, a: nat, i: nat)
    requires Tiled(nodes, order, limit) && mid < |order| && i < |order| && i != mid && InGap(nodes[order[i]], a)
    ensures i < mid <==> a < nodes[order[mid]].addr
  {
    if i < mid { Apart(nodes, order, limit, i, mid); } else { Apart(nodes, order, limit, mid, i); }
  }

  /** The search of mman_insert: the node whose gap holds the address, but for the gap's last one. */
  method GapAt(nodes: Nodes, ghost order: seq<Id>, ghost limit: nat, tree: Tree, a: nat) returns (r: Option<Id>)
    requires Tiled(nodes, order, limit) && (forall x | x in nodes :: x in order) && Inorder(tree) == order
    ensures r.Some? ==> r.value in nodes && InGap(nodes[r.value], a)
    ensures r.None? ==> forall x | x in nodes :: !InGap(nodes[x], a)
  {
    var t := tree;
    ghost var lo, hi: nat := 0, |order|;
    while t.Bin?
      invariant Stretch(t, order, lo, hi)
      invariant forall i | 0 <= i < |order| && InGap(nodes[order[i]], a) :: lo <= i < hi
      decreases t
    {
      ghost var mid := Descend(t, order, lo, hi);
      forall i | 0 <= i < |order| && i != mid && InGap(nodes[order[i]], a)
        ensures i < mid <==> a < nodes[order[mid]].addr
      {
        GapSide(nodes, order, limit, mid, a, i);
      }
      if End(nodes[t.id]) < a < End(nodes[t.id]) + nodes[t.id].free {
        return Some(t.id);
      } else if nodes[t.id].addr > a {
        t, hi := t.left, mid;
      } else {
        t, lo := t.right, mid + 1;
      }
    }
    return None;
  }

  predicate InGap(n: Node, a: nat) { End(n) < a < End(n) + n.free }

  /** A free address is found if and only if it is not the last one of its gap. */
  lemma {:induction false} GapAtExact(nodes: Nodes, order: seq<Id>, start: nat, limit: nat, a: nat, r: Option<Id>,
    x: Id)
    requires Laid(nodes, order, start, limit) && x in nodes && GapStart(nodes[x]) <= a < Fin(nodes[x])
    requires r.Some? ==> r.value in nodes && InGap(nodes[r.value], a)
    requires r.None? ==> forall y | y in nodes :: !InGap(nodes[y], a)
    ensures r == Some(x) <==> a != Fin(nodes[x]) - 1
  {
    if r.Some? {
      var i :| 0 <= i < |order| && order[i] == x;
      var j :| 0 <= j < |order| && order[j] == r.value;
      if i < j { Apart(nodes, order, limit, i, j); }
      if j < i { Apart(nodes, order, limit, j, i); }
    }
  }

  // ----- Changing nodes -----

  /** The node `from` loses the end of its gap to the node id; nothing else changes. */
  ghost predicate Carved(nodes: Nodes, nodes': Nodes, from: Id, id: Id) {
    && from in nodes && id !in nodes && from in nodes' && id in nodes'
    && nodes'.Keys == nodes.Keys + {id} && (forall x | x in nodes && x != from :: nodes'[x] == nodes[x])
    && nodes'[from].addr == nodes[from].addr && nodes'[from].size == nodes[from].size
    && Fin(nodes'[from]) == nodes'[id].addr && Fin(nodes'[id]) == Fin(nodes[from])
  }

  /** mman_node_set_free, mman_node_free_add: take the node out of the tree of gaps and put it where it belongs. */
  function GapPut(nodes: Nodes, gaps: seq<Id>, x: Id, n: Node): seq<Id>
    requires forall y | y in gaps :: y in nodes
  {
    if x in nodes && nodes[x].free == n.free then gaps
    else
      var rest := if x in gaps then Without(gaps, x) else gaps;
      assert forall y | y in rest :: y in nodes by { WithoutIn(gaps, x); }
      if n.free > 0 then Ranking(nodes, rest, x, n.free) else rest
  }

  lemma {:induction false} WithoutIn(gaps: seq<Id>, x: Id)
    ensures forall y | y in Without(gaps, x) :: y in gaps
  {
    if gaps != [] && gaps[0] != x { WithoutIn(gaps[1..], x); }
  }

  lemma {:induction false} RestRanked(nodes: Nodes, nodes': Nodes, gaps: seq<Id>, x: Id)
    requires Ranked(nodes, gaps) && nodes'.Keys == nodes.Keys + {x} && forall y | y in nodes && y != x ::
      nodes'[y] == nodes[y]
    ensures
      var rest := if x in gaps then Without(gaps, x) else gaps;
      && NoDup(rest) && x !in rest && Ascending(nodes', rest)
      && forall y :: y in rest <==> y != x && y in nodes && nodes[y].free > 0
  {
    WithoutElems(gaps, x);
    WithoutAscends(nodes, gaps, x);
    var rest := if x in gaps then Without(gaps, x) else gaps;
    assert forall i | 0 <= i < |rest| :: rest[i] in rest;
  }

  lemma {:induction false} RankedPut(nodes: Nodes, gaps: seq<Id>, x: Id, n: Node)
    requires Ranked(nodes, gaps)
    ensures Ranked(nodes[x := n], GapPut(nodes, gaps, x, n))
  {
    if !(x in nodes && nodes[x].free == n.free) {
      var rest := if x in gaps then Without(gaps, x) else gaps;
      RestRanked(nodes, nodes[x := n], gaps, x);
      RankedAgain(nodes, rest, x, n);
    }
  }

  lemma {:induction false} RankedAgain(nodes: Nodes, rest: seq<Id>, x: Id, n: Node)
    requires NoDup(rest) && x !in rest && forall y :: y in rest <==> y != x && y in nodes && nodes[y].free > 0
    requires Ascending(nodes[x := n], rest)
    ensures Ranked(nodes[x := n], if n.free > 0 then Ranking(nodes, rest, x, n.free) else rest)
  {
    var nodes' := nodes[x := n];
    RankingSame(nodes, nodes', rest, x, n.free);
    if n.free > 0 {
      RankingElems(nodes', rest, x, n.free);
      RankingAscends(nodes', rest, x);
    }
  }

  lemma {:induction false} RankingSame(nodes: Nodes, nodes': Nodes, gaps: seq<Id>, x: Id, free: nat)
    requires forall y | y in gaps :: y in nodes && y in nodes' && nodes'[y] == nodes[y]
    ensures Ranking(nodes', gaps, x, free) == Ranking(nodes, gaps, x, free)
  {
    if gaps != [] { RankingSame(nodes, nodes', gaps[..|gaps| - 1], x, free); }
  }

  lemma {:induction false} RankedCut(nodes: Nodes, gaps: seq<Id>, x: Id)
    requires Ranked(nodes, gaps)
    ensures Ranked(nodes - {x}, Without(gaps, x))
  {
    WithoutElems(gaps, x);
    WithoutAscends(nodes, gaps, x);
  }

  /** The tree position right after a node. */
  function After(order: seq<Id>, x: Id, y: Id): seq<Id>
    requires x in order
  {
    order[..Position(order, x) + 1] + [y] + order[Position(order, x) + 1..]
  }

  lemma {:induction false} CarveLaid(nodes: Nodes, order: seq<Id>, start: nat, limit: nat, from: Id, id: Id,
    left: Node, node: Node)
    requires Laid(nodes, order, start, limit) && from in nodes && id !in nodes && node.size > 0
    requires left.addr == nodes[from].addr && left.size == nodes[from].size && Fin(left) == node.addr
      && Fin(node) == Fin(nodes[from])
    ensures Laid(nodes[id := node][from := left], After(order, from, id), start, limit)
  {
    var i := Position(order, from);
    TiledInsert(nodes, order, limit, i, id, left, node);
    assert nodes[from := left][id := node] == nodes[id := node][from := left];
    InsertElems(order, i + 1, id);
  }

  lemma {:induction false} FreeLaid(nodes: Nodes, order: seq<Id>, start: nat, limit: nat, i: nat, prev: Node)
    requires Laid(nodes, order, start, limit) && 0 < i < |order|
    requires prev.addr == nodes[order[i - 1]].addr && prev.size == nodes[order[i - 1]].size
      && Fin(prev) == Fin(nodes[order[i]])
    ensures Laid(nodes[order[i - 1] := prev] - {order[i]}, order[..i] + order[i + 1..], start, limit)
  {
    TiledRemove(nodes, order, limit, i, prev);
    RemoveElems(order, i);
  }

  lemma {:induction false} TailLaid(nodes: Nodes, order: seq<Id>, start: nat, limit: nat, id: Id, cut: Node)
    requires Laid(nodes, order, start, limit) && id in nodes && id != DUMMY
    requires cut.addr == nodes[id].addr && Fin(cut) == Fin(nodes[id]) && cut.size > 0
    ensures Laid(nodes[id := cut], order, start, limit)
  {
    var nodes' := nodes[id := cut];
    forall k | 0 <= k < |order| - 1 ensures JoinedAt(nodes', order, k) { assert JoinedAt(nodes, order, k); }
  }

  lemma {:induction false} HeadLaid(nodes: Nodes, order: seq<Id>, start: nat, limit: nat, i: nat, prev: Node, cut: Node)
    requires Laid(nodes, order, start, limit) && 0 < i < |order|
    requires prev.addr == nodes[order[i - 1]].addr && prev.size == nodes[order[i - 1]].size && Fin(prev) == cut.addr
    requires Fin(cut) == Fin(nodes[order[i]]) && cut.size > 0
    ensures Laid(nodes[order[i - 1] := prev][order[i] := cut], order, start, limit)
  {
    TiledShift(nodes, order, limit, i, prev, cut);
  }

  // ----- The whole region -----

  function Held(nodes: Nodes, order: seq<Id>): nat
    requires forall i | 0 <= i < |order| :: order[i] in nodes
  {
    if order == [] then 0
    else Held(nodes, order[..|order| - 1]) + nodes[order[|order| - 1]].size + nodes[order[|order| - 1]].free
  }

  /** What the nodes hold and what is free after them add up to the managed region. */
  lemma {:induction false} RegionAddsUp(nodes: Nodes, order: seq<Id>, limit: nat)
    requires Tiled(nodes, order, limit) && |order| > 0
    ensures nodes[order[0]].addr + Held(nodes, order) == limit
  {
    var n := |order| - 1;
    if n > 0 {
      assert JoinedAt(nodes, order, n - 1);
      var front := order[..n];
      forall k | 0 <= k < |front| - 1 ensures JoinedAt(nodes, front, k) { assert JoinedAt(nodes, order, k); }
      RegionAddsUp(nodes, front, nodes[order[n]].addr);
    } else {
      assert order[..0] == [];
    }
  }

  class Manager {
    var nodes: Nodes
    var order: seq<Id>   // the tree of nodes, by address
    var gaps: seq<Id>    // the tree of free space, by size
    const start: nat
    const limit: nat

    ghost predicate Valid()
      reads this
    {
      Laid(nodes, order, start, limit) && Ranked(nodes, gaps) && 0 < start
    }

    /** mman_init: one gap, the whole region. */
    constructor (start: nat, size: nat)
      requires 0 < start
      ensures Valid() && this.start == start && this.limit == start + size && order == [DUMMY]
      ensures nodes == map[DUMMY := Node(start, 0, size)] && gaps == if size > 0 then [DUMMY] else []
    {
      this.start := start;
      this.limit := start + size;
      nodes := map[DUMMY := Node(start, 0, size)];
      order := [DUMMY];
      gaps := if size > 0 then [DUMMY] else [];
    }

    /** mman_alloc */
    method Alloc(gapTree: Tree, id: Id, size: nat, align: nat) returns (from: Option<Id>)
      requires Valid() && Inorder(gapTree) == gaps && id !in nodes && size > 0 && align > 0
      modifies this
      ensures Valid()
      ensures from.None? ==> nodes == old(nodes) && order == old(order) && gaps == old(gaps)
      ensures from.Some? ==> Carved(old(nodes), nodes, from.value, id) && nodes[id].size == size
      ensures from.Some? ==> nodes[id].addr % align == 0 && nodes[id].addr < GapStart(old(nodes)[from.value]) + align
      ensures GapsAligned(old(nodes), old(gaps), align) ==> (forall x | x in old(nodes) && old(nodes)[x].free >= size ::
        from.Some? && old(nodes)[from.value].free <= old(nodes)[x].free)
    {
      from := BestGap(nodes, gaps, gapTree, size, align);
      if from.Some? {
        var n := nodes[from.value];
        AlignUpIs(GapStart(n), align);
        Carve(from.value, id, AlignUp(GapStart(n), align), size);
      }
    }

    /** mman_insert; the search that finds no gap is the assertion that fails. */
    method Insert(tree: Tree, id: Id, addr: nat, size: nat) returns (out: Option<Id>)
      requires Valid() && Inorder(tree) == order && id !in nodes && size > 0
      requires forall x | x in nodes && InGap(nodes[x], addr) :: addr + size <= Fin(nodes[x])
      modifies this
      ensures Valid()
      ensures out.None? ==> nodes == old(nodes) && order == old(order) && gaps == old(gaps)
      ensures out.Some? ==> Carved(old(nodes), nodes, out.value, id) && nodes[id].addr == addr && nodes[id].size == size
      ensures forall x | x in old(nodes) && GapStart(old(nodes)[x]) <= addr < Fin(old(nodes)[x]) ::
        out == Some(x) <==> addr != Fin(old(nodes)[x]) - 1
    {
      out := GapAt(nodes, order, limit, tree, addr);
      forall x | x in nodes && GapStart(nodes[x]) <= addr < Fin(nodes[x]) ensures out == Some(x) <==>
        addr != Fin(nodes[x]) - 1 {
        GapAtExact(nodes, order, start, limit, addr, out, x);
      }
      if out.Some? {
        Carve(out.value, id, addr, size);
      }
    }

    /** The common end of both: the new node takes its part of the gap and the rest behind it. */
    method Carve(from: Id, id: Id, addr: nat, size: nat)
      requires Valid() && from in nodes && id !in nodes && size > 0
      requires GapStart(nodes[from]) <= addr && addr + size <= Fin(nodes[from])
      modifies this
      ensures Valid() && Carved(old(nodes), nodes, from, id) && nodes[id].addr == addr && nodes[id].size == size
    {
      var n := nodes[from];
      var node, left := Node(addr, size, Fin(n) - addr - size), Node(n.addr, n.size, addr - GapStart(n));
      CarveLaid(nodes, order, start, limit, from, id, left, node);
      RankedPut(nodes, gaps, id, node);
      gaps := GapPut(nodes, gaps, id, node);
      order := After(order, from, id);
      nodes := nodes[id := node];
      RankedPut(nodes, gaps, from, left);
      gaps := GapPut(nodes, gaps, from, left);
      nodes := nodes[from := left];
    }

    /** mman_free: the node and its gap fall to the node p before it. */
    method Free(id: Id) returns (ghost p: Id)
      requires Valid() && id in nodes && id != DUMMY
      modifies this
      ensures Valid() && p in old(nodes) && p != id && Fin(old(nodes)[p]) == old(nodes)[id].addr
      ensures
        var before, gone := old(nodes)[p], old(nodes)[id];
        nodes == old(nodes)[p := Node(before.addr, before.size, before.free + gone.free + gone.size)] - {id}
    {
      var i := Position(order, id);
      var q := order[i - 1];
      p := q;
      assert JoinedAt(nodes, order, i - 1);
      var prev := Node(nodes[q].addr, nodes[q].size, nodes[q].free + nodes[id].free + nodes[id].size);
      FreeLaid(nodes, order, start, limit, i, prev);
      RankedPut(nodes, gaps, q, prev);
      gaps := GapPut(nodes, gaps, q, prev);
      nodes := nodes[q := prev];
      RankedCut(nodes, gaps, id);
      gaps := Without(gaps, id);
      order := order[..i] + order[i + 1..];
      nodes := nodes - {id};
    }

    /** mman_node_free_tail */
    method FreeTail(id: Id, size: nat)
      requires Valid() && id in nodes && size < nodes[id].size
      modifies this`nodes, this`gaps
      ensures Valid()
        && nodes == old(nodes)[id := Node(old(nodes)[id].addr, old(nodes)[id].size - size, old(nodes)[id].free + size)]
    {
      var n := nodes[id];
      var cut := Node(n.addr, n.size - size, n.free + size);
      TailLaid(nodes, order, start, limit, id, cut);
      RankedPut(nodes, gaps, id, cut);
      gaps := GapPut(nodes, gaps, id, cut);
      nodes := nodes[id := cut];
    }

    /** mman_node_free_head: the freed addresses join the gap of the node p before it. */
    method FreeHead(id: Id, size: nat) returns (ghost p: Id)
      requires Valid() && id in nodes && size < nodes[id].size
      modifies this`nodes, this`gaps
      ensures Valid() && p in old(nodes) && p != id && Fin(old(nodes)[p]) == old(nodes)[id].addr
      ensures
        var before, n := old(nodes)[p], old(nodes)[id];
        nodes == old(nodes)[p := Node(before.addr, before.size, before.free + size)][id := Node(n.addr + size,
          n.size - size, n.free)]
    {
      var i := Position(order, id);
      var q, n := order[i - 1], nodes[id];
      p := q;
      assert JoinedAt(nodes, order, i - 1);
      var prev, cut := Node(nodes[q].addr, nodes[q].size, nodes[q].free + size),
        Node(n.addr + size, n.size - size, n.free);
      HeadLaid(nodes, order, start, limit, i, prev, cut);
      RankedPut(nodes, gaps, q, prev);
      gaps := GapPut(nodes, gaps, q, prev);
      nodes := nodes[q := prev];
      RankedPut(nodes, gaps, id, cut);
      nodes := nodes[id := cut];
    }
  }

  const PAGE_SZ: nat := 4096

  /** A region of sixteen pages with a mapping of one page at its start. */
  method OneMapping() returns (m: Manager)
    ensures fresh(m) && m.Valid() && m.start == PAGE_SZ && m.limit == 17 * PAGE_SZ
    ensures m.nodes == map[DUMMY := Node(PAGE_SZ, 0, 0), 1 := Node(PAGE_SZ, PAGE_SZ, 15 * PAGE_SZ)]
  {
    m := new Manager(PAGE_SZ, 16 * PAGE_SZ);
    var out := m.Insert(Spine(m.order), 1, PAGE_SZ, PAGE_SZ);
    assert m.nodes.Keys == {DUMMY, 1};
  }

  /** A fault on the last byte of the mapping does not find it. */
  method LastByteUnmapped() returns (m: Manager, r: Option<Id>)
    ensures m.Valid() && 1 in m.nodes && Contains(m.nodes[1], 2 * PAGE_SZ - 1) && r == None
  {
    m := OneMapping();
    r := Lookup(m.nodes, m.order, m.limit, Spine(m.order), 2 * PAGE_SZ - 1);
  }

  /** Unmapping that byte's range does not find the mapping either. */
  method LastByteNotFirst() returns (m: Manager, r: Option<Id>)
    ensures m.Valid() && 1 in m.nodes && Overlaps(m.nodes[1], 2 * PAGE_SZ - 1, PAGE_SZ) && r == None
  {
    m := OneMapping();
    ghost var i;
    r, i := FirstNode(m.nodes, m.order, m.limit, Spine(m.order), 2 * PAGE_SZ - 1, PAGE_SZ);
  }

  /** The last byte of a gap cannot be claimed: the assertion of mman_insert fails. */
  method LastByteNotFree() returns (m: Manager, out: Option<Id>)
    ensures m.Valid() && 1 in m.nodes && GapStart(m.nodes[1]) <= 17 * PAGE_SZ - 1 < Fin(m.nodes[1]) && out == None
  {
    m := OneMapping();
    out := m.Insert(Spine(m.order), 2, 17 * PAGE_SZ - 1, 1);
  }
}
