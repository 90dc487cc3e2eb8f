/** Searching and inserting by comparison, as rb_search and rb_insert (include/lib/rbtree.h) do. */
module RbSearch {
  import opened RbAlgebra
  import opened RbMemory
  import opened RbHeap

  /** What the caller's code says of a node: go left, stop, go right. */
  datatype Way = Left | Here | Right

  function Rank(w: Way): nat { match w case Right => 0 case Here => 1 case Left => 2 }

  /** The comparison follows the order of the nodes: right first, then here, then left. */
  ghost predicate Guides(way: map<RbNode, Way>, s: seq<RbNode>) {
    && (forall i | 0 <= i < |s| :: s[i] in way)
    && forall i, j | 0 <= i < j < |s| :: s[i] in way && s[j] in way && Rank(way[s[i]]) <= Rank(way[s[j]])
  }

  ghost predicate All(way: map<RbNode, Way>, s: seq<RbNode>, w: Way) { forall n | n in s :: n in way && way[n] == w }

  /** Turning left at x leaves nothing behind that is not to the left, and likewise on the right. */
  lemma {:induction false} Turns(way: map<RbNode, Way>, a: seq<RbNode>, x: RbNode, b: seq<RbNode>)
    requires Guides(way, a + [x] + b)
    ensures x in way
    ensures way[x] == Left ==> All(way, [x] + b, Left)
    ensures way[x] == Right ==> All(way, a + [x], Right)
  {
    var s := a + [x] + b;
    assert s[|a|] == x;
    forall n | n in b ensures n in way && Rank(way[x]) <= Rank(way[n]) {
      var i :| 0 <= i < |b| && b[i] == n;
      assert s[|a| + 1 + i] == n;
    }
    forall n | n in a ensures n in way && Rank(way[n]) <= Rank(way[x]) {
      var i :| 0 <= i < |a| && a[i] == n;
      assert s[i] == n;
    }
  }

  /** The path so far: everything passed on the left is to the right of nothing wanted, and the other way round. */
  ghost predicate Narrowed(way: map<RbNode, Way>, p: Path<RbNode>) {
    All(way, Before(p), Right) && All(way, After(p), Left)
  }

  lemma {:induction false} Narrows(way: map<RbNode, Way>, p: Path<RbNode>, t: Tree<RbNode>)
    requires t.Node? && Guides(way, Inorder(Plug(p, t))) && Narrowed(way, p)
    ensures t.item in way
    ensures way[t.item] == Left ==> Narrowed(way, InLeft(t.item, t.color, t.right, p))
    ensures way[t.item] == Right ==> Narrowed(way, InRight(t.left, t.item, t.color, p))
  {
    PlugInorder(p, t);
    var a, b := Before(p) + Inorder(t.left), Inorder(t.right) + After(p);
    assert Inorder(Plug(p, t)) == a + [t.item] + b;
    assert (a + [t.item] + b)[|a|] == t.item;
    Turns(way, a, t.item, b);
    assert After(InLeft(t.item, t.color, t.right, p)) == [t.item] + b;
    assert Before(InRight(t.left, t.item, t.color, p)) == a + [t.item];
  }

  /** rb_search: finds a node at which the comparison stops, if there is one. */
  method Search(tree: RbTree, way: map<RbNode, Way>, ghost S: set<RbNode>,
    ghost whole: Tree<RbNode>) returns (r: RbNode?)
    requires tree.Sees(S, Top, whole) && Guides(way, Inorder(whole))
    ensures r != null ==> r in Inorder(whole) && way[r] == Here
    ensures r == null ==> forall n | n in Inorder(whole) :: way[n] != Here
  {
    r := tree.root;
    ghost var p: Path<RbNode>, t := Top, whole;
    while r != null
      invariant tree.Sees(S, p, t) && r == Root(t) && Plug(p, t) == whole && Narrowed(way, p)
      decreases t
    {
      Narrows(way, p, t);
      Descend(Snap(S), tree.root, p, t);
      PlugInorder(p, t);
      match way[r]
      case Here => return;
      case Left =>
        p, t := InLeft(t.item, t.color, t.right, p), t.left;
        r := r.left;
      case Right =>
        p, t := InRight(t.left, t.item, t.color, p), t.right;
        r := r.right;
    }
    PlugInorder(p, t);
  }

  /** The loop of rb_insert: the empty place at which the comparison ends up. */
  method FindPlace(tree: RbTree, way: map<RbNode, Way>, ghost S: set<RbNode>, ghost whole: Tree<RbNode>)
    returns (parent: RbNode?, goLeft: bool, ghost p: Path<RbNode>)
    requires tree.Sees(S, Top, whole) && Guides(way, Inorder(whole)) && forall n | n in Inorder(whole) :: way[n] != Here
    ensures tree.Sees(S, p, Leaf) && Plug(p, Leaf) == whole && Narrowed(way, p)
    ensures parent == Above(p) && (p != Top ==> (goLeft <==> p.InLeft?))
  {
    var cur := tree.root;
    parent, goLeft, p := null, false, Top;
    ghost var t := whole;
    while cur != null
      invariant tree.Sees(S, p, t) && cur == Root(t) && Plug(p, t) == whole && Narrowed(way, p)
      invariant parent == Above(p) && (p != Top ==> (goLeft <==> p.InLeft?))
      decreases t
    {
      Narrows(way, p, t);
      Descend(Snap(S), tree.root, p, t);
      PlugInorder(p, t);
      parent, goLeft := cur, way[cur] == Left;
      if goLeft {
        p, t := InLeft(t.item, t.color, t.right, p), t.left;
        cur := cur.left;
      } else {
        p, t := InRight(t.left, t.item, t.color, p), t.right;
        cur := cur.right;
      }
    }
  }

  /**
   rb_insert: from any valid tree a valid tree in which the node stands after all nodes to whose
   right the comparison puts it and before all to whose left.
   */
  method Insert(tree: RbTree, node: RbNode, way: map<RbNode, Way>, ghost S: set<RbNode>, ghost whole: Tree<RbNode>)
    returns (ghost rest: Tree<RbNode>, ghost i: nat)
    requires tree.Sees(S, Top, whole) && Valid(whole) && node in S && node !in Items(whole)
    requires Guides(way, Inorder(whole)) && forall n | n in Inorder(whole) :: way[n] != Here
    modifies tree, S
    ensures tree.Sees(S, Top, rest) && Valid(rest) && i <= |Inorder(whole)|
    ensures Inorder(rest) == Inorder(whole)[..i] + [node] + Inorder(whole)[i..]
    ensures All(way, Inorder(whole)[..i], Right) && All(way, Inorder(whole)[i..], Left)
  {
    var parent, goLeft;
    ghost var p;
    parent, goLeft, p := FindPlace(tree, way, S, whole);
    PlugApart(p, Leaf);
    PlugInorder(p, Leaf);
    rest := tree.InsertNode(node, parent, goLeft, S, p);
    i := |Before(p)|;
    Between(Inorder(whole), Inorder(rest), Before(p), After(p), node);
  }

  lemma {:induction false} Between(s: seq<RbNode>, s': seq<RbNode>, a: seq<RbNode>, b: seq<RbNode>, x: RbNode)
    requires s == a + [] + b && s' == a + [x] + b
    ensures |a| <= |s| && s[..|a|] == a && s[|a|..] == b && s' == s[..|a|] + [x] + s[|a|..]
  {}
}
