/**
 The memory a red-black tree lives in: which cells make up a given tree value, and what the
 elementary rewrites (paint, rotate, splice, rename) do to them. Every case of
 lib/rbtree.c is a composition of these rewrites; RbHeap ties the code to them.
 */
module RbMemory {
  import opened RbAlgebra

  /** rb_node_t; the `pc` word, parent link and colour bit in one, is kept as two fields. */
  class RbNode {
    var left: RbNode?
    var right: RbNode?
    var parent: RbNode?
    var color: Color

    /** rb_node_init */
    constructor ()
      ensures left == null && right == null && parent == null && color == Red
    {
      left, right, parent, color := null, null, null, Red;
    }
  }

  /** The fields of a node. */
  datatype Cell = Cell(left: RbNode?, right: RbNode?, parent: RbNode?, color: Color)

  type Mem = map<RbNode, Cell>

  // ----- Nodes of trees and paths -----

  ghost function Items(t: Tree<RbNode>): set<RbNode> {
    match t
    case Leaf => {}
    case Node(l, n, _, r) => Items(l) + {n} + Items(r)
  }

  ghost function PathItems(p: Path<RbNode>): set<RbNode> {
    if p.Top? then {} else {p.item} + Items(Sibling(p)) + PathItems(p.up)
  }

  /** No node occurs twice. */
  ghost predicate Apart(t: Tree<RbNode>) {
    t.Node? ==>
      && Apart(t.left) && Apart(t.right)
      && t.item !in Items(t.left) && t.item !in Items(t.right)
      && Items(t.left) !! Items(t.right)
  }

  ghost predicate PathApart(p: Path<RbNode>) {
    p != Top ==>
      && Apart(Sibling(p)) && PathApart(p.up)
      && p.item !in Items(Sibling(p)) && p.item !in PathItems(p.up)
      && Items(Sibling(p)) !! PathItems(p.up)
  }

  /** t and p share no node and hold none twice. */
  ghost predicate Split(p: Path<RbNode>, t: Tree<RbNode>) {
    Apart(t) && PathApart(p) && Items(t) !! PathItems(p)
  }

  lemma {:induction false} PlugApart(p: Path<RbNode>, t: Tree<RbNode>)
    ensures Apart(Plug(p, t)) <==> Split(p, t)
    ensures Items(Plug(p, t)) == Items(t) + PathItems(p)
    decreases p
  {
    if p != Top {
      PlugApart(p.up, Under(p, t, p.color));
    }
  }

  // ----- Which memory holds which tree -----

  /** m holds t at n, and n's parent link is par. */
  ghost predicate Holds(m: Mem, t: Tree<RbNode>, n: RbNode?, par: RbNode?)
    decreases t
  {
    match t
    case Leaf => n == null
    case Node(l, i, c, r) =>
      && n == i && i in m && m[i].parent == par && m[i].color == c
      && Holds(m, l, m[i].left, i) && Holds(m, r, m[i].right, i)
  }

  /** m holds the path p; below it hangs n, whose parent is par. */
  ghost predicate HoldsPath(m: Mem, root: RbNode?, p: Path<RbNode>, n: RbNode?, par: RbNode?)
    decreases p
  {
    if p.Top? then par == null && root == n
    else
      && par == p.item && p.item in m && m[p.item].color == p.color
      && n == Toward(m, p) && Holds(m, Sibling(p), Aside(m, p), p.item)
      && HoldsPath(m, root, p.up, p.item, m[p.item].parent)
  }

  /** The child link along the path, and the one beside it. */
  ghost function Toward(m: Mem, p: Path<RbNode>): RbNode?
    requires p != Top && p.item in m
  {
    if p.InLeft? then m[p.item].left else m[p.item].right
  }

  ghost function Aside(m: Mem, p: Path<RbNode>): RbNode?
    requires p != Top && p.item in m
  {
    if p.InLeft? then m[p.item].right else m[p.item].left
  }

  ghost function Root(t: Tree<RbNode>): RbNode? { if t.Leaf? then null else t.item }

  ghost function Above(p: Path<RbNode>): RbNode? { if p.Top? then null else p.item }

  /** m and root hold Plug(p, t), seen from the subtree t. */
  ghost predicate Focus(m: Mem, root: RbNode?, p: Path<RbNode>, t: Tree<RbNode>) {
    Holds(m, t, Root(t), Above(p)) && HoldsPath(m, root, p, Root(t), Above(p)) && Split(p, t)
  }

  ghost predicate Is(m: Mem, root: RbNode?, t: Tree<RbNode>) { Focus(m, root, Top, t) }

  lemma {:induction false} AtRoot(m: Mem, t: Tree<RbNode>, n: RbNode?, par: RbNode?)
    requires Holds(m, t, n, par)
    ensures n == Root(t)
  {
  }

  lemma {:induction false} Rise(m: Mem, root: RbNode?, p: Path<RbNode>, t: Tree<RbNode>)
    requires Focus(m, root, p, t) && p != Top
    ensures p.item in m && m[p.item].color == p.color && m[p.item].parent == Above(p.up)
    ensures Toward(m, p) == Root(t) && Aside(m, p) == Root(Sibling(p))
    ensures Focus(m, root, p.up, Under(p, t, p.color))
  {
    AtRoot(m, Sibling(p), Aside(m, p), p.item);
    assert HoldsPath(m, root, p.up, p.item, m[p.item].parent);
    assert m[p.item].parent == Above(p.up);
  }

  lemma {:induction false} Descend(m: Mem, root: RbNode?, p: Path<RbNode>, t: Tree<RbNode>)
    requires Focus(m, root, p, t) && t.Node?
    ensures t.item in m && m[t.item] == Cell(Root(t.left), Root(t.right), Above(p), t.color)
    ensures Focus(m, root, InLeft(t.item, t.color, t.right, p), t.left)
    ensures Focus(m, root, InRight(t.left, t.item, t.color, p), t.right)
  {
    AtRoot(m, t.left, m[t.item].left, t.item);
    AtRoot(m, t.right, m[t.item].right, t.item);
  }

  lemma {:induction false} RiseAll(m: Mem, root: RbNode?, p: Path<RbNode>, t: Tree<RbNode>)
    requires Focus(m, root, p, t)
    ensures Is(m, root, Plug(p, t))
    decreases p
  {
    if p != Top {
      Rise(m, root, p, t);
      RiseAll(m, root, p.up, Under(p, t, p.color));
    }
  }

  lemma {:induction false} DescendAll(m: Mem, root: RbNode?, p: Path<RbNode>, t: Tree<RbNode>)
    requires Is(m, root, Plug(p, t))
    ensures Focus(m, root, p, t)
    decreases p
  {
    if p != Top {
      DescendAll(m, root, p.up, Under(p, t, p.color));
      Descend(m, root, p.up, Under(p, t, p.color));
    }
  }

  // ----- What a change of memory leaves alone -----

  lemma {:induction false} Frame(m: Mem, m': Mem, t: Tree<RbNode>, n: RbNode?, par: RbNode?)
    requires Holds(m, t, n, par)
    requires forall x | x in Items(t) && x in m :: x in m' && m'[x] == m[x]
    ensures Holds(m', t, n, par)
    decreases t
  {
    if t.Node? {
      Frame(m, m', t.left, m[t.item].left, t.item);
      Frame(m, m', t.right, m[t.item].right, t.item);
    }
  }

  lemma {:induction false} FramePath(m: Mem, m': Mem, root: RbNode?, p: Path<RbNode>, n: RbNode?, par: RbNode?)
    requires HoldsPath(m, root, p, n, par)
    requires forall x | x in PathItems(p) && x in m :: x in m' && m'[x] == m[x]
    ensures HoldsPath(m', root, p, n, par)
    decreases p
  {
    if p != Top {
      Frame(m, m', Sibling(p), Aside(m, p), p.item);
      FramePath(m, m', root, p.up, p.item, m[p.item].parent);
    }
  }

  /** A subtree whose root gets another parent and colour. */
  lemma {:induction false} Adopted(m: Mem, t: Tree<RbNode>, n: RbNode?, par: RbNode?, q: RbNode?, c: Color, m': Mem)
    requires Holds(m, t, n, par) && Apart(t)
    requires forall x | x in Items(t) && x in m ::
               x in m' && m'[x] == if x == n then m[x].(parent := q, color := c) else m[x]
    ensures Holds(m', if t.Leaf? then t else t.(color := c), n, q)
  {
    if t.Node? {
      Frame(m, m', t.left, m[t.item].left, t.item);
      Frame(m, m', t.right, m[t.item].right, t.item);
    }
  }

  // ----- Elementary rewrites -----

  ghost function SetParent(m: Mem, n: RbNode?, q: RbNode?): Mem {
    if n == null || n !in m then m else m[n := m[n].(parent := q)]
  }

  ghost function Paint(m: Mem, n: RbNode?, c: Color): Mem {
    if n == null || n !in m then m else m[n := m[n].(color := c)]
  }

  /** rb_change_child */
  ghost function ChangeChild(m: Mem, o: RbNode, n: RbNode?, parent: RbNode?): Mem {
    if parent == null || parent !in m then m
    else if m[parent].left == o then m[parent := m[parent].(left := n)]
    else m[parent := m[parent].(right := n)]
  }

  ghost function ChangeRoot(root: RbNode?, n: RbNode?, parent: RbNode?): RbNode? {
    if parent == null then n else root
  }

  lemma {:induction false} Rehung(m: Mem, root: RbNode?, p: Path<RbNode>, o: RbNode, n: RbNode?)
    requires HoldsPath(m, root, p, o, Above(p)) && PathApart(p) && o !in PathItems(p)
    ensures HoldsPath(ChangeChild(m, o, n, Above(p)), ChangeRoot(root, n, Above(p)), p, n, Above(p))
  {
    if p != Top {
      var m' := ChangeChild(m, o, n, p.item);
      assert p.InRight? ==> m[p.item].left != o;
      Frame(m, m', Sibling(p), Aside(m, p), p.item);
      FramePath(m, m', root, p.up, p.item, m[p.item].parent);
    }
  }

  lemma {:induction false} PaintFocus(m: Mem, root: RbNode?, p: Path<RbNode>, t: Tree<RbNode>, c: Color)
    requires Focus(m, root, p, t) && t.Node?
    ensures Focus(Paint(m, t.item, c), root, p, t.(color := c))
  {
    var m' := Paint(m, t.item, c);
    Frame(m, m', t.left, m[t.item].left, t.item);
    Frame(m, m', t.right, m[t.item].right, t.item);
    FramePath(m, m', root, p, t.item, Above(p));
  }

  /** Rotate x below its right child y; y takes x's colour, x turns into c. */
  ghost function RotateLeft(m: Mem, x: RbNode, c: Color): Mem
    requires x in m && m[x].right != null && m[x].right in m
  {
    var y := m[x].right;
    var b, g := m[y].left, m[x].parent;
    ChangeChild(SetParent(m, b, x)[x := m[x].(right := b, parent := y, color := c)]
                                  [y := m[y].(left := x, parent := g, color := m[x].color)], x, y, g)
  }

  function TurnLeft<T>(t: Tree<T>, c: Color): Tree<T>
    requires t.Node? && t.right.Node?
  {
    Node(Node(t.left, t.item, c, t.right.left), t.right.item, t.color, t.right.right)
  }

  lemma {:induction false} SplitTurnLeft(p: Path<RbNode>, t: Tree<RbNode>, c: Color)
    requires Split(p, t) && t.Node? && t.right.Node?
    ensures Split(p, TurnLeft(t, c)) && Items(TurnLeft(t, c)) == Items(t)
  {
    assert Apart(t.right);
    assert Apart(TurnLeft(t, c).left);
  }

  /** The nodes a rotation touches are all different. */
  ghost predicate RotateLeftShape(m: Mem, x: RbNode) {
    && x in m && m[x].right != null && m[x].right in m && m[x].right != x
    && m[x].parent != x && m[x].parent != m[x].right && (m[x].parent != null ==> m[x].parent in m)
    && var b := m[m[x].right].left; b != x && b != m[x].right && (b != null ==> b in m && b != m[x].parent)
  }

  /** What the rotation writes, cell by cell. */
  ghost predicate RotateLeftCells(m: Mem, m': Mem, x: RbNode, c: Color)
    requires RotateLeftShape(m, x)
  {
    var y := m[x].right;
    var b, g := m[y].left, m[x].parent;
    && m'.Keys == m.Keys
    && m'[x] == m[x].(right := b, parent := y, color := c)
    && m'[y] == m[y].(left := x, parent := g, color := m[x].color)
    && (b != null ==> m'[b] == m[b].(parent := x))
    && (g != null ==> m'[g] == if m[g].left == x then m[g].(left := y) else m[g].(right := y))
    && (forall z | z in m && z !in {x, y, b, g} :: m'[z] == m[z])
  }

  lemma RotateLeftWrites(m: Mem, m': Mem, x: RbNode, c: Color)
    requires RotateLeftShape(m, x)
    ensures RotateLeftCells(m, m', x, c) <==> m' == RotateLeft(m, x, c)
  {
    var r := RotateLeft(m, x, c);
    assert RotateLeftCells(m, r, x, c);
    if RotateLeftCells(m, m', x, c) {
      assert forall z | z in m :: m'[z] == r[z];
    }
  }

  lemma {:induction false} RotateLeftParts(m: Mem, m': Mem, root: RbNode?, p: Path<RbNode>, x: RbNode, y: RbNode,
                                           a: Tree<RbNode>, b: Tree<RbNode>, c: Tree<RbNode>, d: Color)
    requires RotateLeftShape(m, x) && RotateLeftCells(m, m', x, d) && y == m[x].right && m[x].parent == Above(p)
    requires Holds(m, a, m[x].left, x) && Holds(m, b, m[y].left, y) && Holds(m, c, m[y].right, y)
    requires HoldsPath(m, root, p, x, Above(p)) && PathApart(p) && Apart(b)
    requires x !in PathItems(p) && y !in PathItems(p)
    requires {x, y} !! Items(a) && {x, y} !! Items(b) && {x, y} !! Items(c)
    requires Root(b) !in Items(a) && Root(b) !in Items(c) && Root(b) !in PathItems(p)
    requires Above(p) !in Items(a) && Above(p) !in Items(b) && Above(p) !in Items(c)
    ensures Holds(m', a, m'[x].left, x) && Holds(m', b, m'[x].right, x) && Holds(m', c, m'[y].right, y)
    ensures HoldsPath(m', ChangeRoot(root, y, Above(p)), p, y, Above(p))
  {
    Frame(m, m', a, m[x].left, x);
    Frame(m, m', c, m[y].right, y);
    AtRoot(m, b, m[y].left, y);
    Adopted(m, b, m[y].left, y, x, if b.Leaf? then Red else b.color, m');
    Rehung(m, root, p, x, y);
    FramePath(ChangeChild(m, x, y, Above(p)), m', ChangeRoot(root, y, Above(p)), p, y, Above(p));
  }

  lemma {:induction false} RotateLeftReady(m: Mem, root: RbNode?, p: Path<RbNode>, t: Tree<RbNode>)
    requires Focus(m, root, p, t) && t.Node? && t.right.Node?
    ensures RotateLeftShape(m, t.item) && m[t.item].right == t.right.item && m[t.item].parent == Above(p)
    ensures m[t.right.item].left == Root(t.right.left) && m[t.right.item].right == Root(t.right.right)
    ensures m[t.right.item].parent == t.item && m[t.right.item].color == t.right.color
    ensures t.right.left.Node? ==> m[t.right.left.item].color == t.right.left.color
  {
    var x, y := t.item, t.right.item;
    assert Apart(t.right);
    AtRoot(m, t.right, m[x].right, x);
    assert Holds(m, t.right, y, x);
    AtRoot(m, t.right.left, m[y].left, y);
    AtRoot(m, t.right.right, m[y].right, y);
    assert t.right.left.Node? ==> t.right.left.item in Items(t.right.left);
    assert p != Top ==> p.item in PathItems(p);
  }

  /** A rotation turns the tree value the same way, wherever in the tree it happens. */
  lemma {:induction false} RotateLeftFocus(m: Mem, root: RbNode?, p: Path<RbNode>, t: Tree<RbNode>, c: Color)
    requires Focus(m, root, p, t) && t.Node? && t.right.Node?
    ensures RotateLeftShape(m, t.item)
    ensures Focus(RotateLeft(m, t.item, c), ChangeRoot(root, t.right.item, Above(p)), p, TurnLeft(t, c))
  {
    SplitTurnLeft(p, t, c);
    RotateLeftReady(m, root, p, t);
    var x, y, m' := t.item, t.right.item, RotateLeft(m, t.item, c);
    RotateLeftWrites(m, m', x, c);
    assert Apart(t.right);
    assert Holds(m, t.right, y, x);
    assert t.right.left.Node? ==> t.right.left.item in Items(t.right.left);
    assert p != Top ==> p.item in PathItems(p);
    RotateLeftParts(m, m', root, p, x, y, t.left, t.right.left, t.right.right, c);
  }

  /** Rotate x below its left child y; y takes x's colour, x turns into c. */
  ghost function RotateRight(m: Mem, x: RbNode, c: Color): Mem
    requires x in m && m[x].left != null && m[x].left in m
  {
    var y := m[x].left;
    var b, g := m[y].right, m[x].parent;
    ChangeChild(SetParent(m, b, x)[x := m[x].(left := b, parent := y, color := c)]
                                  [y := m[y].(right := x, parent := g, color := m[x].color)], x, y, g)
  }

  function TurnRight<T>(t: Tree<T>, c: Color): Tree<T>
    requires t.Node? && t.left.Node?
  {
    Node(t.left.left, t.left.item, t.color, Node(t.left.right, t.item, c, t.right))
  }

  lemma {:induction false} SplitTurnRight(p: Path<RbNode>, t: Tree<RbNode>, c: Color)
    requires Split(p, t) && t.Node? && t.left.Node?
    ensures Split(p, TurnRight(t, c)) && Items(TurnRight(t, c)) == Items(t)
  {
    assert Apart(t.left);
    assert Apart(TurnRight(t, c).right);
  }

  /** The nodes a rotation touches are all different. */
  ghost predicate RotateRightShape(m: Mem, x: RbNode) {
    && x in m && m[x].left != null && m[x].left in m && m[x].left != x
    && m[x].parent != x && m[x].parent != m[x].left && (m[x].parent != null ==> m[x].parent in m)
    && var b := m[m[x].left].right; b != x && b != m[x].left && (b != null ==> b in m && b != m[x].parent)
  }

  /** What the rotation writes, cell by cell. */
  ghost predicate RotateRightCells(m: Mem, m': Mem, x: RbNode, c: Color)
    requires RotateRightShape(m, x)
  {
    var y := m[x].left;
    var b, g := m[y].right, m[x].parent;
    && m'.Keys == m.Keys
    && m'[x] == m[x].(left := b, parent := y, color := c)
    && m'[y] == m[y].(right := x, parent := g, color := m[x].color)
    && (b != null ==> m'[b] == m[b].(parent := x))
    && (g != null ==> m'[g] == if m[g].left == x then m[g].(left := y) else m[g].(right := y))
    && (forall z | z in m && z !in {x, y, b, g} :: m'[z] == m[z])
  }

  lemma RotateRightWrites(m: Mem, m': Mem, x: RbNode, c: Color)
    requires RotateRightShape(m, x)
    ensures RotateRightCells(m, m', x, c) <==> m' == RotateRight(m, x, c)
  {
    var r := RotateRight(m, x, c);
    assert RotateRightCells(m, r, x, c);
    if RotateRightCells(m, m', x, c) {
      assert forall z | z in m :: m'[z] == r[z];
    }
  }

  lemma {:induction false} RotateRightParts(m: Mem, m': Mem, root: RbNode?, p: Path<RbNode>, x: RbNode, y: RbNode,
                                           a: Tree<RbNode>, b: Tree<RbNode>, c: Tree<RbNode>, d: Color)
    requires RotateRightShape(m, x) && RotateRightCells(m, m', x, d) && y == m[x].left && m[x].parent == Above(p)
    requires Holds(m, a, m[x].right, x) && Holds(m, b, m[y].right, y) && Holds(m, c, m[y].left, y)
    requires HoldsPath(m, root, p, x, Above(p)) && PathApart(p) && Apart(b)
    requires x !in PathItems(p) && y !in PathItems(p)
    requires {x, y} !! Items(a) && {x, y} !! Items(b) && {x, y} !! Items(c)
    requires Root(b) !in Items(a) && Root(b) !in Items(c) && Root(b) !in PathItems(p)
    requires Above(p) !in Items(a) && Above(p) !in Items(b) && Above(p) !in Items(c)
    ensures Holds(m', a, m'[x].right, x) && Holds(m', b, m'[x].left, x) && Holds(m', c, m'[y].left, y)
    ensures HoldsPath(m', ChangeRoot(root, y, Above(p)), p, y, Above(p))
  {
    Frame(m, m', a, m[x].right, x);
    Frame(m, m', c, m[y].left, y);
    AtRoot(m, b, m[y].right, y);
    Adopted(m, b, m[y].right, y, x, if b.Leaf? then Red else b.color, m');
    Rehung(m, root, p, x, y);
    FramePath(ChangeChild(m, x, y, Above(p)), m', ChangeRoot(root, y, Above(p)), p, y, Above(p));
  }

  lemma {:induction false} RotateRightReady(m: Mem, root: RbNode?, p: Path<RbNode>, t: Tree<RbNode>)
    requires Focus(m, root, p, t) && t.Node? && t.left.Node?
    ensures RotateRightShape(m, t.item) && m[t.item].left == t.left.item && m[t.item].parent == Above(p)
    ensures m[t.left.item].right == Root(t.left.right) && m[t.left.item].left == Root(t.left.left)
    ensures m[t.left.item].parent == t.item && m[t.left.item].color == t.left.color
    ensures t.left.right.Node? ==> m[t.left.right.item].color == t.left.right.color
  {
    var x, y := t.item, t.left.item;
    assert Apart(t.left);
    AtRoot(m, t.left, m[x].left, x);
    assert Holds(m, t.left, y, x);
    AtRoot(m, t.left.right, m[y].right, y);
    AtRoot(m, t.left.left, m[y].left, y);
    assert t.left.right.Node? ==> t.left.right.item in Items(t.left.right);
    assert p != Top ==> p.item in PathItems(p);
  }

  /** A rotation turns the tree value the same way, wherever in the tree it happens. */
  lemma {:induction false} RotateRightFocus(m: Mem, root: RbNode?, p: Path<RbNode>, t: Tree<RbNode>, c: Color)
    requires Focus(m, root, p, t) && t.Node? && t.left.Node?
    ensures RotateRightShape(m, t.item)
    ensures Focus(RotateRight(m, t.item, c), ChangeRoot(root, t.left.item, Above(p)), p, TurnRight(t, c))
  {
    SplitTurnRight(p, t, c);
    RotateRightReady(m, root, p, t);
    var x, y, m' := t.item, t.left.item, RotateRight(m, t.item, c);
    RotateRightWrites(m, m', x, c);
    assert Apart(t.left);
    assert Holds(m, t.left, y, x);
    assert t.left.right.Node? ==> t.left.right.item in Items(t.left.right);
    assert p != Top ==> p.item in PathItems(p);
    RotateRightParts(m, m', root, p, x, y, t.right, t.left.right, t.left.left, c);
  }

  /** Two rotations: first the left child of x below its own right child, then x below that. */
  ghost predicate ArcRightShape(m: Mem, x: RbNode, y: RbNode, z: RbNode) {
    && {x, y, z} <= m.Keys && x != y && x != z && y != z
    && m[x].left == y && m[x].right != y && m[y].parent == x && m[y].right == z
    && var a, b, g := m[z].left, m[z].right, m[x].parent;
      && a != x && a != y && a != z && b != x && b != y && b != z && g != x && g != y && g != z
      && (a != null ==> a in m && a != b && a != g)
      && (b != null ==> b in m && b != g)
      && (g != null ==> g in m)
  }

  ghost predicate ArcRightCells(m: Mem, m': Mem, x: RbNode, y: RbNode, z: RbNode, c: Color)
    requires ArcRightShape(m, x, y, z)
  {
    var a, b, g := m[z].left, m[z].right, m[x].parent;
    && m'.Keys == m.Keys
    && m'[z] == Cell(y, x, g, m[x].color)
    && m'[y] == m[y].(right := a, parent := z, color := c)
    && m'[x] == m[x].(left := b, parent := z, color := c)
    && (a != null ==> m'[a] == m[a].(parent := y))
    && (b != null ==> m'[b] == m[b].(parent := x))
    && (g != null ==> m'[g] == if m[g].left == x then m[g].(left := z) else m[g].(right := z))
    && (forall n | n in m && n !in {x, y, z, a, b, g} :: m'[n] == m[n])
  }

  lemma ArcRightWrites(m: Mem, m': Mem, x: RbNode, y: RbNode, z: RbNode, c: Color)
    requires ArcRightShape(m, x, y, z) && ArcRightCells(m, m', x, y, z, c)
    ensures RotateLeftShape(m, y)
    ensures RotateRightShape(RotateLeft(m, y, c), x)
    ensures m' == RotateRight(RotateLeft(m, y, c), x, c)
  {
    var m1 := RotateLeft(m, y, c);
    RotateLeftWrites(m, m1, y, c);
    assert m1[x] == m[x].(left := z) && m1[z] == m[z].(left := y, parent := x, color := m[y].color);
    RotateRightWrites(m1, m', x, c);
    assert RotateRightCells(m1, m', x, c);
  }

  lemma {:induction false} ArcRightReady(m: Mem, root: RbNode?, p: Path<RbNode>, t: Tree<RbNode>)
    requires Focus(m, root, p, t) && t.Node? && t.left.Node? && t.left.right.Node?
    ensures ArcRightShape(m, t.item, t.left.item, t.left.right.item)
    ensures m[t.left.right.item].left == Root(t.left.right.left)
      && m[t.left.right.item].right == Root(t.left.right.right)
    ensures t.left.right.left.Node? ==> m[t.left.right.left.item].color == t.left.right.left.color
    ensures t.left.right.right.Node? ==> m[t.left.right.right.item].color == t.left.right.right.color
  {
    var x, y, z := t.item, t.left.item, t.left.right.item;
    RotateRightReady(m, root, p, t);
    Descend(m, root, p, t);
    RotateLeftReady(m, root, InLeft(t.item, t.color, t.right, p), t.left);
    assert Apart(t.left) && Apart(t.left.right);
    AtRoot(m, t.right, m[x].right, x);
    assert t.right.Node? ==> t.right.item in Items(t.right);
    assert Holds(m, t.left, y, x) && Holds(m, t.left.right, z, y);
    AtRoot(m, t.left.right.left, m[z].left, z);
    AtRoot(m, t.left.right.right, m[z].right, z);
    assert t.left.right.left.Node? ==> t.left.right.left.item in Items(t.left.right.left);
    assert t.left.right.right.Node? ==> t.left.right.right.item in Items(t.left.right.right);
    assert p != Top ==> p.item in PathItems(p);
  }

  lemma {:induction false} ArcRightFocus(m: Mem, m': Mem, root: RbNode?, p: Path<RbNode>, t: Tree<RbNode>, c: Color)
    requires Focus(m, root, p, t) && t.Node? && t.left.Node? && t.left.right.Node?
    requires ArcRightShape(m, t.item, t.left.item, t.left.right.item)
    requires ArcRightCells(m, m', t.item, t.left.item, t.left.right.item, c)
    ensures Focus(m', ChangeRoot(root, t.left.right.item, Above(p)), p, TurnRight(t.(left := TurnLeft(t.left, c)), c))
  {
    var q := InLeft(t.item, t.color, t.right, p);
    Descend(m, root, p, t);
    RotateLeftFocus(m, root, q, t.left, c);
    var m1 := RotateLeft(m, t.left.item, c);
    ArcRightWrites(m, m', t.item, t.left.item, t.left.right.item, c);
    Rise(m1, root, q, TurnLeft(t.left, c));
    RotateRightFocus(m1, root, p, t.(left := TurnLeft(t.left, c)), c);
  }

  /** Two rotations: first the right child of x below its own left child, then x below that. */
  ghost predicate ArcLeftShape(m: Mem, x: RbNode, y: RbNode, z: RbNode) {
    && {x, y, z} <= m.Keys && x != y && x != z && y != z
    && m[x].right == y && m[x].left != y && m[y].parent == x && m[y].left == z
    && var a, b, g := m[z].right, m[z].left, m[x].parent;
      && a != x && a != y && a != z && b != x && b != y && b != z && g != x && g != y && g != z
      && (a != null ==> a in m && a != b && a != g)
      && (b != null ==> b in m && b != g)
      && (g != null ==> g in m)
  }

  ghost predicate ArcLeftCells(m: Mem, m': Mem, x: RbNode, y: RbNode, z: RbNode, c: Color)
    requires ArcLeftShape(m, x, y, z)
  {
    var a, b, g := m[z].right, m[z].left, m[x].parent;
    && m'.Keys == m.Keys
    && m'[z] == Cell(x, y, g, m[x].color)
    && m'[y] == m[y].(left := a, parent := z, color := c)
    && m'[x] == m[x].(right := b, parent := z, color := c)
    && (a != null ==> m'[a] == m[a].(parent := y))
    && (b != null ==> m'[b] == m[b].(parent := x))
    && (g != null ==> m'[g] == if m[g].left == x then m[g].(left := z) else m[g].(right := z))
    && (forall n | n in m && n !in {x, y, z, a, b, g} :: m'[n] == m[n])
  }

  lemma ArcLeftWrites(m: Mem, m': Mem, x: RbNode, y: RbNode, z: RbNode, c: Color)
    requires ArcLeftShape(m, x, y, z) && ArcLeftCells(m, m', x, y, z, c)
    ensures RotateRightShape(m, y)
    ensures RotateLeftShape(RotateRight(m, y, c), x)
    ensures m' == RotateLeft(RotateRight(m, y, c), x, c)
  {
    var m1 := RotateRight(m, y, c);
    RotateRightWrites(m, m1, y, c);
    assert m1[x] == m[x].(right := z) && m1[z] == m[z].(right := y, parent := x, color := m[y].color);
    RotateLeftWrites(m1, m', x, c);
    assert RotateLeftCells(m1, m', x, c);
  }

  lemma {:induction false} ArcLeftReady(m: Mem, root: RbNode?, p: Path<RbNode>, t: Tree<RbNode>)
    requires Focus(m, root, p, t) && t.Node? && t.right.Node? && t.right.left.Node?
    ensures ArcLeftShape(m, t.item, t.right.item, t.right.left.item)
    ensures m[t.right.left.item].right == Root(t.right.left.right)
      && m[t.right.left.item].left == Root(t.right.left.left)
    ensures t.right.left.right.Node? ==> m[t.right.left.right.item].color == t.right.left.right.color
    ensures t.right.left.left.Node? ==> m[t.right.left.left.item].color == t.right.left.left.color
  {
    var x, y, z := t.item, t.right.item, t.right.left.item;
    RotateLeftReady(m, root, p, t);
    Descend(m, root, p, t);
    RotateRightReady(m, root, InRight(t.left, t.item, t.color, p), t.right);
    assert Apart(t.right) && Apart(t.right.left);
    AtRoot(m, t.left, m[x].left, x);
    assert t.left.Node? ==> t.left.item in Items(t.left);
    assert Holds(m, t.right, y, x) && Holds(m, t.right.left, z, y);
    AtRoot(m, t.right.left.right, m[z].right, z);
    AtRoot(m, t.right.left.left, m[z].left, z);
    assert t.right.left.right.Node? ==> t.right.left.right.item in Items(t.right.left.right);
    assert t.right.left.left.Node? ==> t.right.left.left.item in Items(t.right.left.left);
    assert p != Top ==> p.item in PathItems(p);
  }

  lemma {:induction false} ArcLeftFocus(m: Mem, m': Mem, root: RbNode?, p: Path<RbNode>, t: Tree<RbNode>, c: Color)
    requires Focus(m, root, p, t) && t.Node? && t.right.Node? && t.right.left.Node?
    requires ArcLeftShape(m, t.item, t.right.item, t.right.left.item)
    requires ArcLeftCells(m, m', t.item, t.right.item, t.right.left.item, c)
    ensures Focus(m', ChangeRoot(root, t.right.left.item, Above(p)), p, TurnLeft(t.(right := TurnRight(t.right, c)), c))
  {
    var q := InRight(t.left, t.item, t.color, p);
    Descend(m, root, p, t);
    RotateRightFocus(m, root, q, t.right, c);
    var m1 := RotateRight(m, t.right.item, c);
    ArcLeftWrites(m, m', t.item, t.right.item, t.right.left.item, c);
    Rise(m1, root, q, TurnRight(t.right, c));
    RotateLeftFocus(m1, root, p, t.(right := TurnRight(t.right, c)), c);
  }

  lemma {:induction false} PaintChild(m: Mem, root: RbNode?, up: Path<RbNode>, t: Tree<RbNode>, d: Color)
    requires Focus(m, root, up, t) && t.Node?
    ensures t.right.Node? ==> Focus(Paint(m, t.right.item, d), root, up, t.(right := t.right.(color := d)))
    ensures t.left.Node? ==> Focus(Paint(m, t.left.item, d), root, up, t.(left := t.left.(color := d)))
  {
    Descend(m, root, up, t);
    if t.right.Node? {
      var q := InRight(t.left, t.item, t.color, up);
      PaintFocus(m, root, q, t.right, d);
      Rise(Paint(m, t.right.item, d), root, q, t.right.(color := d));
    }
    if t.left.Node? {
      var q := InLeft(t.item, t.color, t.right, up);
      PaintFocus(m, root, q, t.left, d);
      Rise(Paint(m, t.left.item, d), root, q, t.left.(color := d));
    }
  }

  // ----- Recolouring rounds -----

  /** Case 1 of the insertion */
  ghost function FlipColors(m: Mem, uncle: RbNode, parent: RbNode, gparent: RbNode): Mem {
    Paint(Paint(Paint(m, parent, Black), uncle, Black), gparent, Red)
  }

  lemma {:induction false} FlipFocus(m: Mem, root: RbNode?, p: Path<RbNode>, t: Tree<RbNode>)
    requires Focus(m, root, p, t) && p != Top && p.up != Top && Sibling(p.up).Node?
    ensures Focus(FlipColors(m, Sibling(p.up).item, p.item, p.up.item), root, p.up.up, Flipped(p, t))
  {
    var uncle, sub := Sibling(p.up), Under(p, t, p.color);
    Rise(m, root, p, t);
    PaintFocus(m, root, p.up, sub, Black);
    var m1, sub1 := Paint(m, p.item, Black), Under(p, t, Black);
    Rise(m1, root, p.up, sub1);
    PaintChild(m1, root, p.up.up, Under(p.up, sub1, p.up.color), Black);
    PaintFocus(Paint(m1, uncle.item, Black), root, p.up.up,
               Under(WithSibling(p.up, uncle.(color := Black)), sub1, p.up.color), Red);
  }

  /** Case 2 of the removal: the sibling turns red and the parent black. */
  lemma {:induction false} DrainFocus(m: Mem, root: RbNode?, p: Path<RbNode>, t: Tree<RbNode>)
    requires Focus(m, root, p, t) && p != Top && Sibling(p).Node?
    ensures Focus(Paint(Paint(m, Sibling(p).item, Red), p.item, Black), root, p.up, Drained(p, t))
  {
    Rise(m, root, p, t);
    PaintChild(m, root, p.up, Under(p, t, p.color), Red);
    var sub := Under(WithSibling(p, Sibling(p).(color := Red)), t, p.color);
    PaintFocus(Paint(m, Sibling(p).item, Red), root, p.up, sub, Black);
  }

  // ----- Linking and unlinking -----

  /** __rb_link_node: n becomes a red leaf below p. */
  ghost function LinkNode(m: Mem, n: RbNode, p: Path<RbNode>): Mem {
    var m1 := m[n := Cell(null, null, Above(p), Red)];
    if p.Top? || p.item !in m then m1
    else if p.InLeft? then m1[p.item := m[p.item].(left := n)]
    else m1[p.item := m[p.item].(right := n)]
  }

  lemma {:induction false} LinkFocus(m: Mem, root: RbNode?, p: Path<RbNode>, n: RbNode)
    requires Focus(m, root, p, Leaf) && n !in PathItems(p)
    ensures Focus(LinkNode(m, n, p), ChangeRoot(root, n, Above(p)), p, Node(Leaf, n, Red, Leaf))
  {
    var m' := LinkNode(m, n, p);
    if p != Top {
      Frame(m, m', Sibling(p), Aside(m, p), p.item);
      FramePath(m, m', root, p.up, p.item, m[p.item].parent);
    }
  }

  ghost function SetParentColor(m: Mem, n: RbNode?, q: RbNode?, c: Color): Mem {
    if n == null || n !in m then m else m[n := m[n].(parent := q, color := c)]
  }

  /** Replace n, which has no child but c, by c; c turns into the given colour. */
  ghost function Splice(m: Mem, n: RbNode, c: RbNode?, parent: RbNode?, color: Color): Mem {
    ChangeChild(SetParentColor(m, c, parent, color), n, c, parent)
  }

  ghost function Recolored(t: Tree<RbNode>, c: Color): Tree<RbNode> { if t.Leaf? then t else t.(color := c) }

  lemma {:induction false} SpliceFocus(m: Mem, root: RbNode?, p: Path<RbNode>, t: Tree<RbNode>, c: Tree<RbNode>,
    color: Color)
    requires Focus(m, root, p, t) && t.Node?
    requires (t.left == Leaf && c == t.right) || (t.right == Leaf && c == t.left)
    ensures Focus(Splice(m, t.item, Root(c), Above(p), color), ChangeRoot(root, Root(c), Above(p)), p,
      Recolored(c, color))
  {
    var n := t.item;
    var rc := if t.left == Leaf && c == t.right then m[n].right else m[n].left;
    AtRoot(m, c, rc, n);
    assert Holds(m, c, rc, n);
    assert c.Node? ==> c.item in Items(c);
    assert p != Top ==> p.item in PathItems(p);
    Rehung(m, root, p, n, Root(c));
    var m1, m' := ChangeChild(m, n, Root(c), Above(p)), Splice(m, n, Root(c), Above(p), color);
    FramePath(m1, m', ChangeRoot(root, Root(c), Above(p)), p, Root(c), Above(p));
    Adopted(m, c, rc, n, Above(p), color, m');
  }

  /** Let s stand in the place of n. */
  ghost function Rename(m: Mem, n: RbNode, s: RbNode): Mem
    requires n in m
  {
    ChangeChild(SetParent(SetParent(m, m[n].left, s), m[n].right, s)[s := m[n]], n, s, m[n].parent)
  }

  lemma {:induction false} RenameFocus(m: Mem, root: RbNode?, p: Path<RbNode>, t: Tree<RbNode>, s: RbNode)
    requires Focus(m, root, p, t) && t.Node? && s !in Items(t) && s !in PathItems(p)
    ensures t.item in m
    ensures Focus(Rename(m, t.item, s), ChangeRoot(root, s, Above(p)), p, t.(item := s))
  {
    var n, l, r := t.item, t.left, t.right;
    AtRoot(m, l, m[n].left, n);
    AtRoot(m, r, m[n].right, n);
    assert l.Node? ==> l.item in Items(l);
    assert r.Node? ==> r.item in Items(r);
    assert p != Top ==> p.item in PathItems(p);
    Rehung(m, root, p, n, s);
    var m1, m' := ChangeChild(m, n, s, Above(p)), Rename(m, n, s);
    RenameParts(m, m', n, s, l, r, Above(p));
    assert forall z | z in PathItems(p) && z in m1 :: z in m' && m'[z] == m1[z] by {
      assert Items(t) !! PathItems(p);
    }
    FramePath(m1, m', ChangeRoot(root, s, Above(p)), p, s, Above(p));
  }

  lemma {:induction false} RenameParts(m: Mem, m': Mem, n: RbNode, s: RbNode, l: Tree<RbNode>, r: Tree<RbNode>,
    g: RbNode?)
    requires n in m && m[n].parent == g && m[n].left == Root(l) && m[n].right == Root(r) && m' == Rename(m, n, s)
    requires Holds(m, l, Root(l), n) && Holds(m, r, Root(r), n) && Apart(l) && Apart(r) && Items(l) !! Items(r)
    requires s !in Items(l) && s !in Items(r) && g !in Items(l) && g !in Items(r) && s != g
    ensures Holds(m', l, Root(l), s) && Holds(m', r, Root(r), s) && s in m' && m'[s] == m[n]
  {
    assert l.Node? ==> l.item in Items(l);
    assert r.Node? ==> r.item in Items(r);
    Adopted(m, l, Root(l), n, s, if l.Leaf? then Red else l.color, m');
    Adopted(m, r, Root(r), n, s, if r.Leaf? then Red else r.color, m');
  }

  /** The cells outside a tree do not matter. */
  lemma {:induction false} FocusFrame(m: Mem, m': Mem, root: RbNode?, p: Path<RbNode>, t: Tree<RbNode>)
    requires Focus(m, root, p, t)
    requires forall x | x in Items(t) + PathItems(p) && x in m :: x in m' && m'[x] == m[x]
    ensures Focus(m', root, p, t)
  {
    Frame(m, m', t, Root(t), Above(p));
    FramePath(m, m', root, p, Root(t), Above(p));
  }

  /** t with its leftmost node replaced by x. */
  function LeftReplace<T>(t: Tree<T>, x: Tree<T>): Tree<T>
    requires t.Node?
  {
    if t.left.Leaf? then x else t.(left := LeftReplace(t.left, x))
  }

  lemma {:induction false} SpineReplace<T>(t: Tree<T>, up: Path<T>, x: Tree<T>)
    requires t.Node?
    ensures Plug(LeftSpine(t, up), x) == Plug(up, LeftReplace(t, x))
    decreases t
  {
    if t.left.Node? {
      SpineReplace(t.left, InLeft(t.item, t.color, t.right, up), x);
    }
  }

  lemma {:induction false} LeftReplaceItems(t: Tree<RbNode>, c: Color)
    requires t.Node? && Apart(t)
    ensures Items(LeftReplace(t, Recolored(Leftmost(t).right, c))) == Items(t) - {Leftmost(t).item}
    ensures Leftmost(t).item in Items(t)
  {
    if t.left.Node? {
      LeftReplaceItems(t.left, c);
    }
  }

  /**
   The two-child case of rb_erase as two rewrites: the successor is spliced out of its place
   and then stands in for the node to erase.
   */
  ghost function Transplant(m: Mem, t: Tree<RbNode>, p: Path<RbNode>): Mem
    requires t.Node? && t.right.Node? && t.item in m
  {
    var s := Leftmost(t.right);
    var q := LeftSpine(t.right, InRight(t.left, t.item, t.color, p));
    var m1 := Splice(m, s.item, Root(s.right), Above(q), Black);
    if t.item in m1 then Rename(m1, t.item, s.item) else m
  }

  lemma {:induction false} TransplantFocus(m: Mem, root: RbNode?, p: Path<RbNode>, t: Tree<RbNode>)
    requires Focus(m, root, p, t) && t.Node? && t.right.Node?
    ensures t.item in m
    ensures var s := Leftmost(t.right);
      Focus(Transplant(m, t, p), ChangeRoot(root, s.item, Above(p)), SuccessorPath(p, t), Recolored(s.right, Black))
  {
    var n, s := t.item, Leftmost(t.right);
    var x, up := Recolored(s.right, Black), InRight(t.left, n, t.color, p);
    var q := LeftSpine(t.right, up);
    // look at the successor
    Descend(m, root, p, t);
    RiseAll(m, root, up, t.right);
    LeftSpinePlug(t.right, up);
    DescendAll(m, root, q, s);
    SpineNotTop(t.right, up);
    SpliceFocus(m, root, q, s, s.right, Black);
    // look at the node to erase
    var m1 := Splice(m, s.item, Root(s.right), Above(q), Black);
    RiseAll(m1, root, q, x);
    SpineReplace(t.right, up, x);
    var t1 := t.(right := LeftReplace(t.right, x));
    DescendAll(m1, root, p, t1);
    LeftReplaceItems(t.right, Black);
    RenameFocus(m1, root, p, t1, s.item);
    // and back to the successor's place
    var m2, root' := Rename(m1, n, s.item), ChangeRoot(root, s.item, Above(p));
    RiseAll(m2, root', p, t1.(item := s.item));
    SpineReplace(t.right, InRight(t.left, s.item, t.color, p), x);
    DescendAll(m2, root', SuccessorPath(p, t), x);
  }

  lemma {:induction false} SpineNotTop<T>(t: Tree<T>, up: Path<T>)
    requires t.Node? && up != Top
    ensures LeftSpine(t, up) != Top
    decreases t
  {
    if t.left.Node? {
      SpineNotTop(t.left, InLeft(t.item, t.color, t.right, up));
    }
  }
}
