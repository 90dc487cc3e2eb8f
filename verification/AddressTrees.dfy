/** The trees of lib/mman.c and vm/vmem.c as the red-black trees they are. */
module AddressTrees {
  // The searches of Mman and VmemModel are proved for every tree with the right order; here the tree
  // is the one on the heap, and the order is the one that rb_insert and rb_remove keep.

  import opened Lists
  import opened RbAlgebra
  import opened RbMemory
  import opened RbHeap
  import opened RbSearch
  import M = MmanModel
  import N = Mman
  import V = VmemModel

  /** The nodes stand for the identities, in the same order. */
  ghost predicate Labels(id: map<RbNode, nat>, s: seq<RbNode>, order: seq<nat>) {
    |s| == |order| && forall i | 0 <= i < |s| :: s[i] in id && id[s[i]] == order[i]
  }

  // ----- Searching -----

  function LookupWay(n: M.Node, a: nat): Way { if a < n.addr then Left else if N.Hit(n, a) then Here else Right }

  lemma {:induction false} LookupGuides(id: map<RbNode, nat>, s: seq<RbNode>, nodes: M.Nodes, order: seq<nat>,
    limit: nat, a: nat)
    requires Labels(id, s, order) && M.Tiled(nodes, order, limit)
    ensures Guides(map n | n in id && id[n] in nodes :: LookupWay(nodes[id[n]], a), s)
  {
    forall i, j | 0 <= i < j < |s| ensures Rank(LookupWay(nodes[order[i]], a)) <= Rank(LookupWay(nodes[order[j]], a)) {
      M.Apart(nodes, order, limit, i, j);
    }
  }

  /** mman_lookup on the tree itself. */
  method Lookup(tree: RbTree, id: map<RbNode, nat>, nodes: M.Nodes, a: nat,
                ghost order: seq<nat>, ghost limit: nat, ghost S: set<RbNode>,
                  ghost whole: Tree<RbNode>) returns (r: RbNode?)
    requires tree.Sees(S, Top, whole) && Labels(id, Inorder(whole), order) && M.Tiled(nodes, order, limit)
    ensures r != null ==> r in Inorder(whole) && r in id && id[r] in nodes && N.Hit(nodes[id[r]], a)
    ensures r == null ==> forall x | x in order :: x in nodes && !N.Hit(nodes[x], a)
  {
    var way := map n | n in id && id[n] in nodes :: LookupWay(nodes[id[n]], a);
    LookupGuides(id, Inorder(whole), nodes, order, limit, a);
    r := Search(tree, way, S, whole);
    if r == null {
      forall x | x in order ensures x in nodes && !N.Hit(nodes[x], a) {
        var i :| 0 <= i < |order| && order[i] == x;
        assert Inorder(whole)[i] in Inorder(whole);
      }
    }
  }

  function FreeWay(r: V.Region, p: nat): Way { if p < r.first then Left else if V.In(r, p) then Here else Right }

  lemma {:induction false} FreeGuides(id: map<RbNode, nat>, s: seq<RbNode>, regions: V.Regions, order: seq<nat>, p: nat)
    requires Labels(id, s, order) && V.Sparse(regions, order, 0) && forall x | x in order :: x in regions
    ensures Guides(map n | n in id && id[n] in regions :: FreeWay(regions[id[n]], p), s)
  {
    forall i, j | 0 <= i < j < |s| ensures Rank(FreeWay(regions[order[i]], p)) <= Rank(FreeWay(regions[order[j]], p)) {
      assert V.Before(regions, order, i, j, 0);
    }
  }

  /** vmem_get_free_at on the tree itself. */
  method FreeAt(tree: RbTree, id: map<RbNode, nat>, regions: V.Regions, p: nat,
                ghost order: seq<nat>, ghost S: set<RbNode>, ghost whole: Tree<RbNode>) returns (r: RbNode?)
    requires tree.Sees(S, Top, whole) && Labels(id, Inorder(whole), order) && V.Spaced(regions, order, 1)
    ensures r != null ==> r in Inorder(whole) && r in id && id[r] in regions && V.In(regions[id[r]], p)
    ensures r == null ==> !V.IsFree(regions, p)
  {
    var way := map n | n in id && id[n] in regions :: FreeWay(regions[id[n]], p);
    assert V.Sparse(regions, order, 0) by {
      forall i, j | 0 <= i < j < |order|
        ensures V.Before(regions, order, i, j, 0)
      {
        assert V.Before(regions, order, i, j, 1);
      }
    }
    FreeGuides(id, Inorder(whole), regions, order, p);
    r := Search(tree, way, S, whole);
    if r == null {
      forall x | x in regions ensures !V.In(regions[x], p) {
        var i :| 0 <= i < |order| && order[i] == x;
        assert Inorder(whole)[i] in Inorder(whole);
      }
    }
  }

  // ----- Inserting and removing -----

  /** Addresses do not fall along the order. */
  ghost predicate Rising(key: map<nat, nat>, order: seq<nat>) {
    && (forall x | x in order :: x in key)
    && forall i, j | 0 <= i < j < |order| :: order[i] in key && order[j] in key && key[order[i]] <= key[order[j]]
  }

  lemma {:induction false} AddGuides(id: map<RbNode, nat>, s: seq<RbNode>, key: map<nat, nat>, order: seq<nat>, k: nat)
    requires Labels(id, s, order) && Rising(key, order)
    ensures Guides(map n | n in id && id[n] in key :: if k < key[id[n]] then Left else Right, s)
  {}

  /**
   mman_node_add, and the tree part of vmem_free_create: the new identity stands behind all with an
   address that is not greater, and the addresses still rise.
   */
  method Add(tree: RbTree, node: RbNode, x: nat, id: map<RbNode, nat>, key: map<nat, nat>,
             ghost order: seq<nat>, ghost S: set<RbNode>, ghost whole: Tree<RbNode>)
    returns (ghost rest: Tree<RbNode>, ghost i: nat)
    requires tree.Sees(S, Top, whole) && Valid(whole) && node in S && node !in Items(whole)
    requires Labels(id, Inorder(whole), order) && x in key && x !in order && Rising(key, order)
    modifies tree, S
    ensures tree.Sees(S, Top, rest) && Valid(rest) && i <= |order|
    ensures Labels(id[node := x], Inorder(rest), order[..i] + [x] + order[i..])
      && Rising(key, order[..i] + [x] + order[i..])
    ensures (forall y | y in order[..i] :: key[y] <= key[x]) && (forall y | y in order[i..] :: key[x] < key[y])
  {
    var way := map n | n in id && id[n] in key :: if key[x] < key[id[n]] then Left else Right;
    ghost var s := Inorder(whole);
    AddGuides(id, s, key, order, key[x]);
    ItemsInorder(whole, node);
    rest, i := Insert(tree, node, way, S, whole);
    Placed(id, s, key, order, x, node, i, way);
  }

  lemma {:induction false} Placed(id: map<RbNode, nat>, s: seq<RbNode>, key: map<nat, nat>, order: seq<nat>, x: nat,
                                  node: RbNode, i: nat, way: map<RbNode, Way>)
    requires Labels(id, s, order) && Rising(key, order) && x in key && i <= |s| && node !in s
    requires way == map n | n in id && id[n] in key :: if key[x] < key[id[n]] then Left else Right
    requires All(way, s[..i], Right) && All(way, s[i..], Left)
    ensures Labels(id[node := x], s[..i] + [node] + s[i..], order[..i] + [x] + order[i..])
    ensures Rising(key, order[..i] + [x] + order[i..])
    ensures (forall y | y in order[..i] :: key[y] <= key[x]) && (forall y | y in order[i..] :: key[x] < key[y])
  {
    forall j | 0 <= j < i ensures key[order[j]] <= key[x] { assert s[j] in s[..i]; }
    forall j | i <= j < |s| ensures key[x] < key[order[j]] { assert s[j] in s[i..]; }
  }

  lemma {:induction false} ItemsInorder(t: Tree<RbNode>, n: RbNode)
    ensures n in Items(t) <==> n in Inorder(t)
  {
    if t.Node? {
      ItemsInorder(t.left, n);
      ItemsInorder(t.right, n);
    }
  }

  /** rb_remove of a node: its identity leaves the order. */
  method Remove(tree: RbTree, node: RbNode, id: map<RbNode, nat>,
                ghost order: seq<nat>, ghost S: set<RbNode>, ghost whole: Tree<RbNode>)
    returns (ghost rest: Tree<RbNode>, ghost i: nat)
    requires tree.Sees(S, Top, whole) && Valid(whole) && node in Items(whole) && Labels(id, Inorder(whole), order)
    modifies tree, S
    ensures tree.Sees(S, Top, rest) && Valid(rest) && i < |order| && node in id && order[i] == id[node]
    ensures Labels(id, Inorder(rest), order[..i] + order[i + 1..])
  {
    rest := tree.RemoveNode(node, S, whole);
    ghost var s := Inorder(whole);
    i :| 0 <= i < |s| && s[i] == node && Inorder(rest) == s[..i] + s[i + 1..];
  }
}
