/**
 The code of lib/rbtree.c, working in place on nodes. S is a set of nodes that holds
 the whole tree; ghost trees and paths say what these nodes make up. The mirrored halves of
 the source are both written out.
 */
module RbHeap {
  import opened RbAlgebra
  import opened RbMemory

  /** The fields of the nodes in S, as they are in the heap now. */
  ghost function Snap(S: set<RbNode>): Mem
    reads S
  {
    map n | n in S :: Cell(n.left, n.right, n.parent, n.color)
  }

  // ----- What the blocks of the source store -----

  /** m' is m but for the nodes in ch. */
  ghost predicate SameBut(m: Mem, m': Mem, ch: set<RbNode?>) {
    m'.Keys == m.Keys && forall n | n in m && n !in ch :: m'[n] == m[n]
  }

  ghost predicate InOrNull(m: Mem, n: RbNode?) { n != null ==> n in m }

  /** rb_change_child */
  ghost predicate Handed(m: Mem, m': Mem, above: RbNode?, o: RbNode, n: RbNode) {
    above != null && above in m && above in m' ==>
      m'[above] == if m[above].left == o then m[above].(left := n) else m[above].(right := n)
  }

  /** Insertion, case 2 */
  ghost predicate Case2LeftCells(m: Mem, m': Mem, node: RbNode, parent: RbNode)
    requires node in m && parent in m && InOrNull(m, m[node].left)
  {
    var a := m[node].left;
    && SameBut(m, m', {node, parent, a})
    && m'[node] == m[node].(left := parent)
    && m'[parent] == m[parent].(right := a, parent := node, color := Red)
    && (a != null ==> m'[a] == m[a].(parent := parent, color := Black))
  }

  /** Insertion, case 3 */
  ghost predicate Case3LeftCells(m: Mem, m': Mem, parent: RbNode, gparent: RbNode, tmp: RbNode?)
    requires parent in m && gparent in m && InOrNull(m, tmp) && InOrNull(m, m[gparent].parent)
  {
    var above := m[gparent].parent;
    && SameBut(m, m', {parent, gparent, tmp, above})
    && m'[parent] == m[parent].(right := gparent, parent := above, color := m[gparent].color)
    && m'[gparent] == m[gparent].(left := tmp, parent := parent, color := Red)
    && (tmp != null ==> m'[tmp] == m[tmp].(parent := gparent, color := Black))
    && Handed(m, m', above, gparent, parent)
  }

  lemma InsertOuterLeftWrites(m: Mem, m': Mem, gparent: RbNode)
    requires RotateRightShape(m, gparent)
    requires var tmp := m[m[gparent].left].right; tmp != null ==> m[tmp].color.Black?
    requires Case3LeftCells(m, m', m[gparent].left, gparent, m[m[gparent].left].right)
    ensures RotateRightCells(m, m', gparent, Red)
  {
  }

  lemma InsertInnerLeftWrites(m: Mem, m1: Mem, m': Mem, node: RbNode, parent: RbNode, gparent: RbNode)
    requires ArcRightShape(m, gparent, parent, node)
    requires m[node].left != null ==> m[m[node].left].color.Black?
    requires m[node].right != null ==> m[m[node].right].color.Black?
    requires Case2LeftCells(m, m1, node, parent) && Case3LeftCells(m1, m', node, gparent, m[node].right)
    ensures ArcRightCells(m, m', gparent, parent, node, Red)
  {
  }

  /** Removal, case 1 */
  ghost predicate Case1LeftCells(m: Mem, m': Mem, parent: RbNode, sibling: RbNode)
    requires parent in m && sibling in m && InOrNull(m, m[sibling].left) && InOrNull(m, m[parent].parent)
  {
    var tmp1, above := m[sibling].left, m[parent].parent;
    && SameBut(m, m', {parent, sibling, tmp1, above})
    && m'[parent] == m[parent].(right := tmp1, parent := sibling, color := Red)
    && m'[sibling] == m[sibling].(left := parent, parent := above, color := m[parent].color)
    && (tmp1 != null ==> m'[tmp1] == m[tmp1].(parent := parent, color := Black))
    && Handed(m, m', above, parent, sibling)
  }

  lemma EraseLowerLeftWrites(m: Mem, m': Mem, parent: RbNode)
    requires RotateLeftShape(m, parent)
    requires var tmp := m[m[parent].right].left; tmp != null ==> m[tmp].color.Black?
    requires Case1LeftCells(m, m', parent, m[parent].right)
    ensures RotateLeftCells(m, m', parent, Red)
  {
  }

  /** Removal, case 3 */
  ghost predicate CaseNearLeftCells(m: Mem, m': Mem, parent: RbNode, sibling: RbNode, tmp2: RbNode)
    requires {parent, sibling, tmp2} <= m.Keys && InOrNull(m, m[tmp2].right)
  {
    var tmp1 := m[tmp2].right;
    && SameBut(m, m', {parent, sibling, tmp1, tmp2})
    && m'[parent] == m[parent].(right := tmp2)
    && m'[sibling] == m[sibling].(left := tmp1)
    && m'[tmp2] == m[tmp2].(right := sibling)
    && (tmp1 != null ==> m'[tmp1] == m[tmp1].(parent := sibling, color := Black))
  }

  /** Removal, case 4 */
  ghost predicate CaseFarLeftCells(m: Mem, m': Mem, parent: RbNode, sibling: RbNode, tmp1: RbNode)
    requires {parent, sibling, tmp1} <= m.Keys && InOrNull(m, m[sibling].left) && InOrNull(m, m[parent].parent)
  {
    var tmp2, above := m[sibling].left, m[parent].parent;
    && SameBut(m, m', {parent, sibling, tmp1, tmp2, above})
    && m'[parent] == m[parent].(right := tmp2, parent := sibling, color := Black)
    && m'[sibling] == m[sibling].(left := parent, parent := above, color := m[parent].color)
    && m'[tmp1] == m[tmp1].(parent := sibling, color := Black)
    && (tmp2 != null ==> m'[tmp2] == m[tmp2].(parent := parent))
    && Handed(m, m', above, parent, sibling)
  }

  lemma EraseOuterLeftWrites(m: Mem, m': Mem, parent: RbNode, tmp1: RbNode)
    requires RotateLeftShape(Paint(m, tmp1, Black), parent) && RotateLeftShape(m, parent) && tmp1 in m
    requires var s := m[parent].right;
      m[s].right == tmp1 && m[tmp1].parent == s && tmp1 != parent && tmp1 != s && tmp1 != m[s].left
        && tmp1 != m[parent].parent
    requires CaseFarLeftCells(m, m', parent, m[parent].right, tmp1)
    ensures RotateLeftCells(Paint(m, tmp1, Black), m', parent, Black)
  {
  }

  lemma EraseInnerLeftWrites(m: Mem, m1: Mem, m': Mem, parent: RbNode, sibling: RbNode, tmp2: RbNode)
    requires ArcLeftShape(m, parent, sibling, tmp2)
    requires m[tmp2].right != null ==> m[m[tmp2].right].color.Black?
    requires CaseNearLeftCells(m, m1, parent, sibling, tmp2) && CaseFarLeftCells(m1, m', parent, tmp2, sibling)
    ensures ArcLeftCells(m, m', parent, sibling, tmp2, Black)
  {
  }

  /** Insertion, case 2 */
  ghost predicate Case2RightCells(m: Mem, m': Mem, node: RbNode, parent: RbNode)
    requires node in m && parent in m && InOrNull(m, m[node].right)
  {
    var a := m[node].right;
    && SameBut(m, m', {node, parent, a})
    && m'[node] == m[node].(right := parent)
    && m'[parent] == m[parent].(left := a, parent := node, color := Red)
    && (a != null ==> m'[a] == m[a].(parent := parent, color := Black))
  }

  /** Insertion, case 3 */
  ghost predicate Case3RightCells(m: Mem, m': Mem, parent: RbNode, gparent: RbNode, tmp: RbNode?)
    requires parent in m && gparent in m && InOrNull(m, tmp) && InOrNull(m, m[gparent].parent)
  {
    var above := m[gparent].parent;
    && SameBut(m, m', {parent, gparent, tmp, above})
    && m'[parent] == m[parent].(left := gparent, parent := above, color := m[gparent].color)
    && m'[gparent] == m[gparent].(right := tmp, parent := parent, color := Red)
    && (tmp != null ==> m'[tmp] == m[tmp].(parent := gparent, color := Black))
    && Handed(m, m', above, gparent, parent)
  }

  lemma InsertOuterRightWrites(m: Mem, m': Mem, gparent: RbNode)
    requires RotateLeftShape(m, gparent)
    requires var tmp := m[m[gparent].right].left; tmp != null ==> m[tmp].color.Black?
    requires Case3RightCells(m, m', m[gparent].right, gparent, m[m[gparent].right].left)
    ensures RotateLeftCells(m, m', gparent, Red)
  {
  }

  lemma InsertInnerRightWrites(m: Mem, m1: Mem, m': Mem, node: RbNode, parent: RbNode, gparent: RbNode)
    requires ArcLeftShape(m, gparent, parent, node)
    requires m[node].right != null ==> m[m[node].right].color.Black?
    requires m[node].left != null ==> m[m[node].left].color.Black?
    requires Case2RightCells(m, m1, node, parent) && Case3RightCells(m1, m', node, gparent, m[node].left)
    ensures ArcLeftCells(m, m', gparent, parent, node, Red)
  {
  }

  /** Removal, case 1 */
  ghost predicate Case1RightCells(m: Mem, m': Mem, parent: RbNode, sibling: RbNode)
    requires parent in m && sibling in m && InOrNull(m, m[sibling].right) && InOrNull(m, m[parent].parent)
  {
    var tmp1, above := m[sibling].right, m[parent].parent;
    && SameBut(m, m', {parent, sibling, tmp1, above})
    && m'[parent] == m[parent].(left := tmp1, parent := sibling, color := Red)
    && m'[sibling] == m[sibling].(right := parent, parent := above, color := m[parent].color)
    && (tmp1 != null ==> m'[tmp1] == m[tmp1].(parent := parent, color := Black))
    && Handed(m, m', above, parent, sibling)
  }

  lemma EraseLowerRightWrites(m: Mem, m': Mem, parent: RbNode)
    requires RotateRightShape(m, parent)
    requires var tmp := m[m[parent].left].right; tmp != null ==> m[tmp].color.Black?
    requires Case1RightCells(m, m', parent, m[parent].left)
    ensures RotateRightCells(m, m', parent, Red)
  {
  }

  /** Removal, case 3 */
  ghost predicate CaseNearRightCells(m: Mem, m': Mem, parent: RbNode, sibling: RbNode, tmp2: RbNode)
    requires {parent, sibling, tmp2} <= m.Keys && InOrNull(m, m[tmp2].left)
  {
    var tmp1 := m[tmp2].left;
    && SameBut(m, m', {parent, sibling, tmp1, tmp2})
    && m'[parent] == m[parent].(left := tmp2)
    && m'[sibling] == m[sibling].(right := tmp1)
    && m'[tmp2] == m[tmp2].(left := sibling)
    && (tmp1 != null ==> m'[tmp1] == m[tmp1].(parent := sibling, color := Black))
  }

  /** Removal, case 4 */
  ghost predicate CaseFarRightCells(m: Mem, m': Mem, parent: RbNode, sibling: RbNode, tmp1: RbNode)
    requires {parent, sibling, tmp1} <= m.Keys && InOrNull(m, m[sibling].right) && InOrNull(m, m[parent].parent)
  {
    var tmp2, above := m[sibling].right, m[parent].parent;
    && SameBut(m, m', {parent, sibling, tmp1, tmp2, above})
    && m'[parent] == m[parent].(left := tmp2, parent := sibling, color := Black)
    && m'[sibling] == m[sibling].(right := parent, parent := above, color := m[parent].color)
    && m'[tmp1] == m[tmp1].(parent := sibling, color := Black)
    && (tmp2 != null ==> m'[tmp2] == m[tmp2].(parent := parent))
    && Handed(m, m', above, parent, sibling)
  }

  lemma EraseOuterRightWrites(m: Mem, m': Mem, parent: RbNode, tmp1: RbNode)
    requires RotateRightShape(Paint(m, tmp1, Black), parent) && RotateRightShape(m, parent) && tmp1 in m
    requires var s := m[parent].left;
      m[s].left == tmp1 && m[tmp1].parent == s && tmp1 != parent && tmp1 != s && tmp1 != m[s].right
        && tmp1 != m[parent].parent
    requires CaseFarRightCells(m, m', parent, m[parent].left, tmp1)
    ensures RotateRightCells(Paint(m, tmp1, Black), m', parent, Black)
  {
  }

  lemma EraseInnerRightWrites(m: Mem, m1: Mem, m': Mem, parent: RbNode, sibling: RbNode, tmp2: RbNode)
    requires ArcRightShape(m, parent, sibling, tmp2)
    requires m[tmp2].left != null ==> m[m[tmp2].left].color.Black?
    requires CaseNearRightCells(m, m1, parent, sibling, tmp2) && CaseFarRightCells(m1, m', parent, tmp2, sibling)
    ensures ArcRightCells(m, m', parent, sibling, tmp2, Black)
  {
  }

  lemma {:induction false} ArcRightItems(t: Tree<RbNode>, c: Color)
    requires t.Node? && t.left.Node? && t.left.right.Node?
    ensures Items(TurnRight(t.(left := TurnLeft(t.left, c)), c)) == Items(t)
  {
    assert Items(TurnLeft(t.left, c)) == Items(t.left);
    var u := t.(left := TurnLeft(t.left, c));
    assert Items(TurnRight(u, c)) == Items(u);
  }

  lemma {:induction false} FarCellRight(m: Mem, root: RbNode?, p: Path<RbNode>, t: Tree<RbNode>)
    requires Focus(m, root, p, t) && t.Node? && t.right.Node? && t.right.right.Node?
    ensures var f, y := t.right.right.item, t.right.item;
      && f in m && y in m && m[f].parent == y && f != t.item && f != y && f != Root(t.right.left) && f != Above(p)
  {
    var y, f := t.right.item, t.right.right.item;
    assert Apart(t.right);
    AtRoot(m, t.right, m[t.item].right, t.item);
    assert Holds(m, t.right, y, t.item);
    assert Holds(m, t.right.right, m[y].right, y);
    assert f in Items(t.right.right);
    assert t.right.left.Node? ==> t.right.left.item in Items(t.right.left);
    assert p != Top ==> p.item in PathItems(p);
  }

  lemma {:induction false} ArcLeftItems(t: Tree<RbNode>, c: Color)
    requires t.Node? && t.right.Node? && t.right.left.Node?
    ensures Items(TurnLeft(t.(right := TurnRight(t.right, c)), c)) == Items(t)
  {
    assert Items(TurnRight(t.right, c)) == Items(t.right);
    var u := t.(right := TurnRight(t.right, c));
    assert Items(TurnLeft(u, c)) == Items(u);
  }

  lemma {:induction false} FarCellLeft(m: Mem, root: RbNode?, p: Path<RbNode>, t: Tree<RbNode>)
    requires Focus(m, root, p, t) && t.Node? && t.left.Node? && t.left.left.Node?
    ensures var f, y := t.left.left.item, t.left.item;
      && f in m && y in m && m[f].parent == y && f != t.item && f != y && f != Root(t.left.right) && f != Above(p)
  {
    var y, f := t.left.item, t.left.left.item;
    assert Apart(t.left);
    AtRoot(m, t.left, m[t.item].left, t.item);
    assert Holds(m, t.left, y, t.item);
    assert Holds(m, t.left.left, m[y].left, y);
    assert f in Items(t.left.left);
    assert t.left.right.Node? ==> t.left.right.item in Items(t.left.right);
    assert p != Top ==> p.item in PathItems(p);
  }

  /** The nodes that rb_erase touches when it moves the successor s, child of par, into n's place. */
  ghost predicate MovedShape(m: Mem, n: RbNode, s: RbNode, par: RbNode) {
    && {n, s, par} <= m.Keys && n != s && n != par
    && var l, r, c2, above := m[n].left, m[n].right, m[s].right, m[n].parent;
      && l != null && r != null && l in m && r in m && l != r && l !in {n, s, par} && r != n
      && (s == r <==> par == s) && (s != r ==> m[par].left == s)
      && (c2 != null ==> c2 in m) && c2 !in {n, s, l, r, par} && (c2 != null ==> c2 != above)
      && (above != null ==> above in m) && above !in {n, s, l, r, par}
  }

  ghost predicate MovedCells(m: Mem, m': Mem, n: RbNode, s: RbNode, par: RbNode)
    requires MovedShape(m, n, s, par)
  {
    var l, r, c2, above := m[n].left, m[n].right, m[s].right, m[n].parent;
    && SameBut(m, m', {s, par, l, r, c2, above})
    && m'[s] == Cell(l, if s == r then c2 else r, above, m[n].color)
    && m'[l] == m[l].(parent := s)
    && (s != r && par != r ==> m'[par] == m[par].(left := c2) && m'[r] == m[r].(parent := s))
    && (s != r && par == r ==> m'[r] == m[r].(left := c2, parent := s))
    && (c2 != null ==> m'[c2] == m[c2].(parent := par, color := Black))
    && Handed(m, m', above, n, s)
  }

  /** The stores of rb_erase amount to the two rewrites, but for the erased node itself. */
  lemma MovedWrites(m: Mem, m': Mem, n: RbNode, s: RbNode, par: RbNode)
    requires MovedShape(m, n, s, par) && MovedCells(m, m', n, s, par)
    ensures
      var m1 := Splice(m, s, m[s].right, if s == m[n].right then n else par, Black);
      n in m1 && SameBut(Rename(m1, n, s), m', {n})
  {
    if s == m[n].right {
      MovedNear(m, m', n, s);
    } else {
      MovedFar(m, m', n, s, par);
    }
  }

  lemma MovedNear(m: Mem, m': Mem, n: RbNode, s: RbNode)
    requires MovedShape(m, n, s, s) && MovedCells(m, m', n, s, s)
    ensures var m1 := Splice(m, s, m[s].right, n, Black); n in m1 && SameBut(Rename(m1, n, s), m', {n})
  {
    var m1 := Splice(m, s, m[s].right, n, Black);
    assert m1[n] == m[n].(right := m[s].right);
  }

  lemma MovedFar(m: Mem, m': Mem, n: RbNode, s: RbNode, par: RbNode)
    requires MovedShape(m, n, s, par) && MovedCells(m, m', n, s, par) && s != par
    ensures var m1 := Splice(m, s, m[s].right, par, Black); n in m1 && SameBut(Rename(m1, n, s), m', {n})
  {
    var m1 := Splice(m, s, m[s].right, par, Black);
    RenameCells(m1, n, s);
    MovedFarSteps(m, m1, Rename(m1, n, s), m', n, s, par);
  }

  lemma MovedFarSteps(m: Mem, m1: Mem, m2: Mem, m': Mem, n: RbNode, s: RbNode, par: RbNode)
    requires MovedShape(m, n, s, par) && MovedCells(m, m', n, s, par) && s != par
    requires SameBut(m, m1, {par, m[s].right}) && m1[par] == m[par].(left := m[s].right)
    requires m[s].right != null ==> m1[m[s].right] == m[m[s].right].(parent := par, color := Black)
    requires
      var l, r, above := m1[n].left, m1[n].right, m1[n].parent;
      && l != null && r != null && l in m1 && r in m1 && SameBut(m1, m2, {s, l, r, above}) && m2[s] == m1[n]
      && m2[l] == m1[l].(parent := s) && m2[r] == m1[r].(parent := s) && Handed(m1, m2, above, n, s)
    ensures SameBut(m2, m', {n})
  {
  }

  lemma RenameCells(m: Mem, n: RbNode, s: RbNode)
    requires n in m && m[n].left != null && m[n].right != null && m[n].left in m && m[n].right in m && s in m
    requires m[n].left != m[n].right && s !in {n, m[n].left, m[n].right} && n !in {m[n].left, m[n].right}
    requires m[n].parent !in {s, n, m[n].left, m[n].right} && (m[n].parent != null ==> m[n].parent in m)
    ensures
      var m', l, r, above := Rename(m, n, s), m[n].left, m[n].right, m[n].parent;
      && SameBut(m, m', {s, l, r, above}) && m'[s] == m[n]
      && m'[l] == m[l].(parent := s) && m'[r] == m[r].(parent := s) && Handed(m, m', above, n, s)
  {
  }

  /** First the links below the successor change. */
  ghost predicate RelinkCells(m: Mem, m': Mem, n: RbNode, s: RbNode, par: RbNode)
    requires MovedShape(m, n, s, par)
  {
    var l, r, c2 := m[n].left, m[n].right, m[s].right;
    && SameBut(m, m', {s, par, l, r})
    && m'[s] == m[s].(left := l, right := if s == r then c2 else r)
    && m'[l] == m[l].(parent := s)
    && (s != r && par != r ==> m'[par] == m[par].(left := c2) && m'[r] == m[r].(parent := s))
    && (s != r && par == r ==> m'[r] == m[r].(left := c2, parent := s))
  }

  /** Then it is handed to the parent of the erased node. */
  ghost predicate HandOverCells(m: Mem, m': Mem, n: RbNode, s: RbNode)
    requires n in m && s in m
  {
    && SameBut(m, m', {s, m[n].parent})
    && m'[s] == m[s].(parent := m[n].parent, color := m[n].color)
    && Handed(m, m', m[n].parent, n, s)
  }

  lemma MovedSteps(m: Mem, m1: Mem, m2: Mem, m': Mem, n: RbNode, s: RbNode, par: RbNode)
    requires MovedShape(m, n, s, par) && RelinkCells(m, m1, n, s, par) && HandOverCells(m1, m2, n, s)
    requires m' == SetParentColor(m2, m[s].right, par, Black)
    ensures MovedCells(m, m', n, s, par)
  {
    assert m1[n] == m[n];
  }

  lemma {:induction false} SpineItems(t: Tree<RbNode>, up: Path<RbNode>)
    requires t.Node?
    ensures PathItems(up) <= PathItems(LeftSpine(t, up)) && Leftmost(t).item in Items(t)
    ensures t.left.Node? ==> t.item in PathItems(LeftSpine(t, up))
    ensures t.left.Node? ==> LeftSpine(t, up).InLeft? && LeftSpine(t, up).item in Items(t)
    decreases t
  {
    if t.left.Node? {
      SpineItems(t.left, InLeft(t.item, t.color, t.right, up));
    }
  }

  /** Look at the successor of the node to erase. */
  lemma {:induction false} SpineFocus(m: Mem, root: RbNode?, p: Path<RbNode>, t: Tree<RbNode>)
    requires Focus(m, root, p, t) && t.Node? && t.right.Node?
    ensures Focus(m, root, LeftSpine(t.right, InRight(t.left, t.item, t.color, p)), Leftmost(t.right))
  {
    var up := InRight(t.left, t.item, t.color, p);
    Descend(m, root, p, t);
    RiseAll(m, root, up, t.right);
    LeftSpinePlug(t.right, up);
    DescendAll(m, root, LeftSpine(t.right, up), Leftmost(t.right));
  }

  /** The parent of the successor, or the successor itself if that is the erased node's child. */
  ghost function SuccessorParent(t: Tree<RbNode>, p: Path<RbNode>): RbNode
    requires t.Node? && t.right.Node?
  {
    if t.right.left.Leaf? then t.right.item
    else
      SpineItems(t.right, InRight(t.left, t.item, t.color, p));
      LeftSpine(t.right, InRight(t.left, t.item, t.color, p)).item
  }

  lemma {:induction false} MovedReady(m: Mem, root: RbNode?, p: Path<RbNode>, t: Tree<RbNode>)
    requires Focus(m, root, p, t) && t.Node? && t.left.Node? && t.right.Node?
    ensures MovedShape(m, t.item, Leftmost(t.right).item, SuccessorParent(t, p))
    ensures m[Leftmost(t.right).item].right == Root(Leftmost(t.right).right)
    ensures m[Leftmost(t.right).item].color == Leftmost(t.right).color
    ensures t.right.left.Leaf? <==> Leftmost(t.right).item == t.right.item
  {
    var up, s := InRight(t.left, t.item, t.color, p), Leftmost(t.right);
    var q := LeftSpine(t.right, up);
    Descend(m, root, p, t);
    SpineFocus(m, root, p, t);
    SpineItems(t.right, up);
    Descend(m, root, q, s);
    SpineNotTop(t.right, up);
    Rise(m, root, q, s);
    assert s.right.Node? ==> s.right.item in Items(s);
    assert t.left.item in Items(t.left) && t.right.item in Items(t.right);
    assert p != Top ==> p.item in PathItems(p);
    assert t.left.item in PathItems(up) && t.item in PathItems(up) && (p != Top ==> p.item in PathItems(up));
    assert Split(q, s) && s.item in Items(s);
  }

  lemma {:induction false} TransplantDone(m: Mem, m': Mem, root: RbNode?, p: Path<RbNode>, t: Tree<RbNode>)
    requires Focus(m, root, p, t) && t.Node? && t.left.Node? && t.right.Node?
    requires t.item in m && SameBut(Transplant(m, t, p), m', {t.item})
    ensures
      var s, q := Leftmost(t.right), SuccessorPath(p, t);
      && q != Top && Focus(m', ChangeRoot(root, s.item, Above(p)), q, Recolored(s.right, Black))
      && q.item == SuccessorParent(t, p)
      && Items(Recolored(s.right, Black)) + PathItems(q) <= Items(t) + PathItems(p)
  {
    var s, q := Leftmost(t.right), SuccessorPath(p, t);
    SuccessorPlace(p, t);
    TransplantFocus(m, root, p, t);
    TransplantItems(p, t);
    FocusFrame(Transplant(m, t, p), m', ChangeRoot(root, s.item, Above(p)), q, Recolored(s.right, Black));
  }

  lemma {:induction false} TransplantIs(m: Mem, p: Path<RbNode>, t: Tree<RbNode>)
    requires t.Node? && t.right.Node? && t.item in m && Leftmost(t.right).item in m
    requires m[t.item].right == t.right.item && m[Leftmost(t.right).item].right == Root(Leftmost(t.right).right)
    requires t.right.left.Leaf? <==> Leftmost(t.right).item == t.right.item
    ensures
      var n, s := t.item, Leftmost(t.right).item;
      var m1 := Splice(m, s, m[s].right, if s == m[n].right then n else SuccessorParent(t, p), Black);
      n in m1 && Transplant(m, t, p) == Rename(m1, n, s)
  {
    SuccessorPlace(p, t);
  }

  lemma {:induction false} SuccessorPlace(p: Path<RbNode>, t: Tree<RbNode>)
    requires t.Node? && t.right.Node?
    ensures SuccessorPath(p, t) != Top && SuccessorPath(p, t).item == SuccessorParent(t, p)
    ensures
      var q := LeftSpine(t.right, InRight(t.left, t.item, t.color, p));
      q != Top && q.item == if t.right.left.Leaf? then t.item else SuccessorParent(t, p)
    ensures t.right.left.Leaf? <==> Leftmost(t.right) == t.right
  {
    var up, up' := InRight(t.left, t.item, t.color, p), InRight(t.left, Leftmost(t.right).item, t.color, p);
    SpineNotTop(t.right, up);
    SpineNotTop(t.right, up');
    SpineSame(t.right, up, up');
  }

  /** Only the far end of the spine depends on what it hangs from. */
  lemma {:induction false} SpineSame(t: Tree<RbNode>, up: Path<RbNode>, up': Path<RbNode>)
    requires t.Node? && up != Top && up' != Top
    ensures t.left.Node? ==>
      LeftSpine(t, up) != Top && LeftSpine(t, up') != Top && LeftSpine(t, up).item == LeftSpine(t, up').item
    decreases t
  {
    if t.left.Node? {
      SpineSame(t.left, InLeft(t.item, t.color, t.right, up), InLeft(t.item, t.color, t.right, up'));
    }
  }

  /** The erased node is gone, all others are still there. */
  lemma {:induction false} TransplantItems(p: Path<RbNode>, t: Tree<RbNode>)
    requires Split(p, t) && t.Node? && t.right.Node?
    ensures
      var s, q := Leftmost(t.right), SuccessorPath(p, t);
      Items(Recolored(s.right, Black)) + PathItems(q) == (Items(t) + PathItems(p)) - {t.item}
  {
    var s := Leftmost(t.right);
    var up := InRight(t.left, s.item, t.color, p);
    var x := Recolored(s.right, Black);
    SpineReplace(t.right, up, x);
    PlugApart(LeftSpine(t.right, up), x);
    PlugApart(up, LeftReplace(t.right, x));
    LeftReplaceItems(t.right, Black);
  }

  lemma {:induction false} OnlyChildReady(m: Mem, root: RbNode?, p: Path<RbNode>, t: Tree<RbNode>, c: Tree<RbNode>)
    requires Focus(m, root, p, t) && t.Node? && (c == t.left || c == t.right)
    ensures Root(c) != t.item && (c.Node? ==> c.item in m && c.item != Above(p)) && Above(p) != t.item
    ensures p != Top ==> p.item in m
    ensures Items(Recolored(c, t.color)) == Items(c)
  {
    Descend(m, root, p, t);
    assert c.Node? ==> c.item in Items(c);
    assert p != Top ==> p.item in PathItems(p);
  }

  /** Erasing the root of t takes a black node away without a child to make up for it. */
  predicate Lacking<T>(t: Tree<T>)
    requires t.Node?
  {
    if t.left.Leaf? then t.right.Leaf? && t.color.Black?
    else t.right.Node? && Leftmost(t.right).right.Leaf? && Leftmost(t.right).color.Black?
  }

  lemma {:induction false} RebalanceFits(p: Path<RbNode>, t: Tree<RbNode>)
    requires t.Node? && Valid(Plug(p, t)) && Lacking(t)
    ensures Fits(if t.left.Leaf? then p else SuccessorPath(p, t), 1)
  {
    UnplugValid(p, t);
    if t.left.Node? {
      SpineFits(t.right, InRight(t.left, Leftmost(t.right).item, t.color, p));
    }
  }

  /** Every node of a tree is the root of some subtree. */
  lemma {:induction false} Locate(t: Tree<RbNode>, up: Path<RbNode>, n: RbNode)
    returns (p: Path<RbNode>, u: Tree<RbNode>)
    requires n in Items(t)
    ensures Plug(p, u) == Plug(up, t) && u.Node? && u.item == n
    decreases t
  {
    if n == t.item {
      p, u := up, t;
    } else if n in Items(t.left) {
      p, u := Locate(t.left, InLeft(t.item, t.color, t.right, up), n);
    } else {
      p, u := Locate(t.right, InRight(t.left, t.item, t.color, up), n);
    }
  }

  lemma {:induction false} ItemsOrder(t: Tree<RbNode>, n: RbNode)
    ensures n in Items(t) <==> n in Inorder(t)
  {
    if t.Node? {
      ItemsOrder(t.left, n);
      ItemsOrder(t.right, n);
    }
  }

  lemma {:induction false} PathOrder(p: Path<RbNode>, n: RbNode)
    requires n !in PathItems(p)
    ensures n !in Before(p) && n !in After(p)
    decreases p
  {
    if p != Top {
      ItemsOrder(Sibling(p), n);
      PathOrder(p.up, n);
    }
  }

  /** The removal takes exactly the node out of the order. */
  lemma {:induction false} RemoveOrder(p: Path<RbNode>, t: Tree<RbNode>)
    requires t.Node? && Split(p, t)
    ensures
      var s := Inorder(Plug(p, t));
      exists i :: 0 <= i < |s| && s[i] == t.item && Inorder(Remove(p, t)) == s[..i] + s[i+1..]
    ensures t.item !in Items(Remove(p, t))
  {
    PlugInorder(p, t);
    RemoveInorder(p, t);
    CutOut(Before(p), Inorder(t.left), t.item, Inorder(t.right), After(p));
    ItemsOrder(t.left, t.item);
    ItemsOrder(t.right, t.item);
    PathOrder(p, t.item);
    ItemsOrder(Remove(p, t), t.item);
  }

  lemma CutOut(a: seq<RbNode>, b: seq<RbNode>, n: RbNode, c: seq<RbNode>, d: seq<RbNode>)
    ensures
      var s := a + (b + [n] + c) + d;
      exists i :: 0 <= i < |s| && s[i] == n && a + b + c + d == s[..i] + s[i+1..]
  {
    var s, i := a + (b + [n] + c) + d, |a + b|;
    assert s[i] == n && s[..i] == a + b && s[i+1..] == c + d;
    assert a + b + c + d == (a + b) + (c + d);
  }

  lemma {:induction false} UnderItems(p: Path<RbNode>, t: Tree<RbNode>, c: Color)
    requires p != Top
    ensures Items(Under(p, t, c)) + PathItems(p.up) == Items(t) + PathItems(p)
  {
  }

  lemma {:induction false} DrainedItems(p: Path<RbNode>, t: Tree<RbNode>)
    requires p != Top && Sibling(p).Node?
    ensures Items(Drained(p, t)) + PathItems(p.up) == Items(t) + PathItems(p)
  {
    assert Items(Sibling(p).(color := Red)) == Items(Sibling(p));
  }

  /** The sibling and its children, as the heap shows them. */
  lemma {:induction false} NephewCells(m: Mem, root: RbNode?, p: Path<RbNode>, t: Tree<RbNode>)
    requires Focus(m, root, p, t) && p != Top && Sibling(p).Node?
    ensures {p.item, Sibling(p).item} <= m.Keys && p.item != Sibling(p).item && m[p.item].color == p.color
    ensures var s := Sibling(p); m[s.item] == Cell(Root(s.left), Root(s.right), p.item, s.color)
    ensures Sibling(p).left.Node? ==>
      Sibling(p).left.item in m && m[Sibling(p).left.item].color == Sibling(p).left.color
    ensures Sibling(p).right.Node? ==>
      Sibling(p).right.item in m && m[Sibling(p).right.item].color == Sibling(p).right.color
  {
    var s := Sibling(p);
    Rise(m, root, p, t);
    AtRoot(m, s, Aside(m, p), p.item);
    assert Holds(m, s, s.item, p.item);
    assert s.item in Items(s);
    AtRoot(m, s.left, m[s.item].left, s.item);
    AtRoot(m, s.right, m[s.item].right, s.item);
  }

  /** A hole is a right child exactly if the right link of its parent says so. */
  lemma {:induction false} HoleSide(m: Mem, root: RbNode?, p: Path<RbNode>, t: Tree<RbNode>)
    requires Focus(m, root, p, t) && p != Top && Sibling(p).Node?
    ensures p.item in m && (p.InRight? <==> m[p.item].right == Root(t))
  {
    Rise(m, root, p, t);
    assert Sibling(p).item in Items(Sibling(p));
    assert t.Node? ==> t.item in Items(t);
  }

  lemma {:induction false} ChildSide(m: Mem, root: RbNode?, p: Path<RbNode>, t: Tree<RbNode>)
    requires Focus(m, root, p, t) && p != Top && t.Node?
    ensures p.item in m
    ensures p.InLeft? <==> m[p.item].left == t.item
    ensures p.InRight? <==> m[p.item].right == t.item
  {
    Rise(m, root, p, t);
    assert Sibling(p).Node? ==> Sibling(p).item in Items(Sibling(p));
    assert t.item in Items(t);
  }

  lemma {:induction false} PaintGrandchild(m: Mem, root: RbNode?, up: Path<RbNode>, t: Tree<RbNode>)
    requires Focus(m, root, up, t) && t.Node?
    ensures t.right.Node? && t.right.right.Node? ==>
      Focus(Paint(m, t.right.right.item, Black), root, up,
        t.(right := t.right.(right := t.right.right.(color := Black))))
    ensures t.left.Node? && t.left.left.Node? ==>
      Focus(Paint(m, t.left.left.item, Black), root, up, t.(left := t.left.(left := t.left.left.(color := Black))))
  {
    Descend(m, root, up, t);
    if t.right.Node? && t.right.right.Node? {
      var q := InRight(t.left, t.item, t.color, up);
      PaintChild(m, root, q, t.right, Black);
      Rise(Paint(m, t.right.right.item, Black), root, q, t.right.(right := t.right.right.(color := Black)));
    }
    if t.left.Node? && t.left.left.Node? {
      var q := InLeft(t.item, t.color, t.right, up);
      PaintChild(m, root, q, t.left, Black);
      Rise(Paint(m, t.left.left.item, Black), root, q, t.left.(left := t.left.left.(color := Black)));
    }
  }

  lemma {:induction false} SubItems(p: Path<RbNode>, t: Tree<RbNode>)
    requires p != Top && p.up != Top
    ensures Items(Under(p.up, Under(p, t, p.color), p.up.color)) + PathItems(p.up.up) == Items(t) + PathItems(p)
    ensures Sibling(p.up).Node? ==> Items(Flipped(p, t)) + PathItems(p.up.up) == Items(t) + PathItems(p)
  {
    assert Items(Under(p, t, p.color)) == Items(t) + {p.item} + Items(Sibling(p));
    assert Items(Under(p, t, Black)) == Items(t) + {p.item} + Items(Sibling(p));
  }

  /** The uncle, and how the recoloured nodes of case 1 of the insertion hang together. */
  lemma {:induction false} UncleCell(m: Mem, root: RbNode?, p: Path<RbNode>, t: Tree<RbNode>)
    requires Focus(m, root, p, t) && p != Top && p.up != Top
    ensures {p.item, p.up.item} <= m.Keys && p.item != p.up.item && m[p.item].parent == p.up.item
    ensures Aside(m, p.up) == Root(Sibling(p.up))
    ensures Sibling(p.up).Node? ==>
      var u := Sibling(p.up).item;
      u in m && p.item != u && p.up.item != u && m[u].parent == p.up.item && m[u].color == Sibling(p.up).color
  {
    Rise(m, root, p, t);
    Rise(m, root, p.up, Under(p, t, p.color));
    assert Sibling(p.up).Node? ==> Sibling(p.up).item in Items(Sibling(p.up));
    assert Holds(m, Sibling(p.up), Aside(m, p.up), p.up.item);
  }

  class RbTree {
    var root: RbNode?

    /** rb_tree_init */
    constructor ()
      ensures root == null
    {
      root := null;
    }

    /** This tree is Plug(p, t). */
    ghost predicate Sees(S: set<RbNode>, p: Path<RbNode>, t: Tree<RbNode>)
      reads this, S
    {
      Items(t) + PathItems(p) <= S && Focus(Snap(S), root, p, t)
    }

    /** rb_rotate_set_parents: `new'` takes over old's parent and colour and becomes its parent. */
    method RotateSetParents(old': RbNode, new': RbNode, color: Color, ghost S: set<RbNode>)
      requires {old', new'} <= S && old' != new' && old'.parent !in {old', new'} && InOrNull(Snap(S), old'.parent)
      modifies this, S
      ensures
        var m, m', above := old(Snap(S)), Snap(S), old(old'.parent);
        && SameBut(m, m', {old', new', above})
        && m'[new'] == m[new'].(parent := above, color := m[old'].color)
        && m'[old'] == m[old'].(parent := new', color := color)
        && Handed(m, m', above, old', new')
      ensures root == ChangeRoot(old(root), new', old(old'.parent))
    {
      var parent := old'.parent;
      new'.parent, new'.color := old'.parent, old'.color;
      old'.parent, old'.color := new', color;
      // rb_change_child
      if parent != null {
        if parent.left == old' {
          parent.left := new';
        } else {
          parent.right := new';
        }
      } else {
        root := new';
      }
    }

    method InsertCase2Left(node: RbNode, parent: RbNode, ghost S: set<RbNode>)
      requires {node, parent} <= S && node != parent && node.left !in {node, parent} && InOrNull(Snap(S), node.left)
      modifies S
      ensures Case2LeftCells(old(Snap(S)), Snap(S), node, parent)
    {
      var tmp := node.left;
      parent.right := tmp;
      node.left := parent;
      if tmp != null {
        tmp.parent, tmp.color := parent, Black;
      }
      parent.parent, parent.color := node, Red;
    }

    method InsertCase3Left(parent: RbNode, gparent: RbNode, tmp: RbNode?, ghost S: set<RbNode>)
      requires {parent, gparent} <= S && parent != gparent && tmp !in {parent, gparent} && InOrNull(Snap(S), tmp)
      requires gparent.parent !in {parent, gparent} && InOrNull(Snap(S), gparent.parent)
      requires tmp != null ==> tmp != gparent.parent
      modifies this, S
      ensures Case3LeftCells(old(Snap(S)), Snap(S), parent, gparent, tmp)
      ensures root == ChangeRoot(old(root), parent, old(gparent.parent))
    {
      gparent.left := tmp;
      parent.right := gparent;
      if tmp != null {
        tmp.parent, tmp.color := gparent, Black;
      }
      RotateSetParents(gparent, parent, Red, S);
    }

    method EraseCase1Left(parent: RbNode, sibling: RbNode, ghost S: set<RbNode>)
      requires {parent, sibling} <= S && parent != sibling && sibling.left !in {null, parent, sibling}
        && sibling.left in S
      requires parent.parent !in {parent, sibling, sibling.left} && InOrNull(Snap(S), parent.parent)
      modifies this, S
      ensures Case1LeftCells(old(Snap(S)), Snap(S), parent, sibling)
      ensures root == ChangeRoot(old(root), sibling, old(parent.parent))
    {
      var tmp1 := sibling.left;
      parent.right := tmp1;
      sibling.left := parent;
      tmp1.parent, tmp1.color := parent, Black;
      RotateSetParents(parent, sibling, Red, S);
    }

    method EraseCase3Left(parent: RbNode, sibling: RbNode, tmp2: RbNode, ghost S: set<RbNode>)
      requires {parent, sibling, tmp2} <= S && parent != sibling && tmp2 != parent && tmp2 != sibling
      requires tmp2.right !in {parent, sibling, tmp2} && InOrNull(Snap(S), tmp2.right)
      modifies S
      ensures CaseNearLeftCells(old(Snap(S)), Snap(S), parent, sibling, tmp2)
    {
      var tmp1 := tmp2.right;
      sibling.left := tmp1;
      tmp2.right := sibling;
      parent.right := tmp2;
      if tmp1 != null {
        tmp1.parent, tmp1.color := sibling, Black;
      }
    }

    method EraseCase4Left(parent: RbNode, sibling: RbNode, tmp1: RbNode, ghost S: set<RbNode>)
      requires {parent, sibling, tmp1} <= S && parent != sibling && tmp1 != parent && tmp1 != sibling
      requires sibling.left !in {parent, sibling, tmp1} && InOrNull(Snap(S), sibling.left)
      requires parent.parent !in {parent, sibling, tmp1} && InOrNull(Snap(S), parent.parent)
      requires sibling.left != null ==> sibling.left != parent.parent
      modifies this, S
      ensures CaseFarLeftCells(old(Snap(S)), Snap(S), parent, sibling, tmp1)
      ensures root == ChangeRoot(old(root), sibling, old(parent.parent))
    {
      EraseCase4LeftLinks(parent, sibling, tmp1, S);
      RotateSetParents(parent, sibling, Black, S);
    }

    method EraseCase4LeftLinks(parent: RbNode, sibling: RbNode, tmp1: RbNode, ghost S: set<RbNode>)
      requires {parent, sibling, tmp1} <= S && parent != sibling && tmp1 != parent && tmp1 != sibling
      requires sibling.left !in {parent, sibling, tmp1} && InOrNull(Snap(S), sibling.left)
      modifies S
      ensures
        var m, m', tmp2 := old(Snap(S)), Snap(S), old(sibling.left);
        && SameBut(m, m', {parent, sibling, tmp1, tmp2})
        && m'[parent] == m[parent].(right := tmp2)
        && m'[sibling] == m[sibling].(left := parent)
        && m'[tmp1] == m[tmp1].(parent := sibling, color := Black)
        && (tmp2 != null ==> m'[tmp2] == m[tmp2].(parent := parent))
    {
      var tmp2 := sibling.left;
      parent.right := tmp2;
      sibling.left := parent;
      tmp1.parent, tmp1.color := sibling, Black;
      if tmp2 != null {
        tmp2.parent := parent;
      }
    }

    method InsertCase2Right(node: RbNode, parent: RbNode, ghost S: set<RbNode>)
      requires {node, parent} <= S && node != parent && node.right !in {node, parent} && InOrNull(Snap(S), node.right)
      modifies S
      ensures Case2RightCells(old(Snap(S)), Snap(S), node, parent)
    {
      var tmp := node.right;
      parent.left := tmp;
      node.right := parent;
      if tmp != null {
        tmp.parent, tmp.color := parent, Black;
      }
      parent.parent, parent.color := node, Red;
    }

    method InsertCase3Right(parent: RbNode, gparent: RbNode, tmp: RbNode?, ghost S: set<RbNode>)
      requires {parent, gparent} <= S && parent != gparent && tmp !in {parent, gparent} && InOrNull(Snap(S), tmp)
      requires gparent.parent !in {parent, gparent} && InOrNull(Snap(S), gparent.parent)
      requires tmp != null ==> tmp != gparent.parent
      modifies this, S
      ensures Case3RightCells(old(Snap(S)), Snap(S), parent, gparent, tmp)
      ensures root == ChangeRoot(old(root), parent, old(gparent.parent))
    {
      gparent.right := tmp;
      parent.left := gparent;
      if tmp != null {
        tmp.parent, tmp.color := gparent, Black;
      }
      RotateSetParents(gparent, parent, Red, S);
    }

    method EraseCase1Right(parent: RbNode, sibling: RbNode, ghost S: set<RbNode>)
      requires {parent, sibling} <= S && parent != sibling && sibling.right !in {null, parent, sibling}
        && sibling.right in S
      requires parent.parent !in {parent, sibling, sibling.right} && InOrNull(Snap(S), parent.parent)
      modifies this, S
      ensures Case1RightCells(old(Snap(S)), Snap(S), parent, sibling)
      ensures root == ChangeRoot(old(root), sibling, old(parent.parent))
    {
      var tmp1 := sibling.right;
      parent.left := tmp1;
      sibling.right := parent;
      tmp1.parent, tmp1.color := parent, Black;
      RotateSetParents(parent, sibling, Red, S);
    }

    method EraseCase3Right(parent: RbNode, sibling: RbNode, tmp2: RbNode, ghost S: set<RbNode>)
      requires {parent, sibling, tmp2} <= S && parent != sibling && tmp2 != parent && tmp2 != sibling
      requires tmp2.left !in {parent, sibling, tmp2} && InOrNull(Snap(S), tmp2.left)
      modifies S
      ensures CaseNearRightCells(old(Snap(S)), Snap(S), parent, sibling, tmp2)
    {
      var tmp1 := tmp2.left;
      sibling.right := tmp1;
      tmp2.left := sibling;
      parent.left := tmp2;
      if tmp1 != null {
        tmp1.parent, tmp1.color := sibling, Black;
      }
    }

    method EraseCase4Right(parent: RbNode, sibling: RbNode, tmp1: RbNode, ghost S: set<RbNode>)
      requires {parent, sibling, tmp1} <= S && parent != sibling && tmp1 != parent && tmp1 != sibling
      requires sibling.right !in {parent, sibling, tmp1} && InOrNull(Snap(S), sibling.right)
      requires parent.parent !in {parent, sibling, tmp1} && InOrNull(Snap(S), parent.parent)
      requires sibling.right != null ==> sibling.right != parent.parent
      modifies this, S
      ensures CaseFarRightCells(old(Snap(S)), Snap(S), parent, sibling, tmp1)
      ensures root == ChangeRoot(old(root), sibling, old(parent.parent))
    {
      EraseCase4RightLinks(parent, sibling, tmp1, S);
      RotateSetParents(parent, sibling, Black, S);
    }

    method EraseCase4RightLinks(parent: RbNode, sibling: RbNode, tmp1: RbNode, ghost S: set<RbNode>)
      requires {parent, sibling, tmp1} <= S && parent != sibling && tmp1 != parent && tmp1 != sibling
      requires sibling.right !in {parent, sibling, tmp1} && InOrNull(Snap(S), sibling.right)
      modifies S
      ensures
        var m, m', tmp2 := old(Snap(S)), Snap(S), old(sibling.right);
        && SameBut(m, m', {parent, sibling, tmp1, tmp2})
        && m'[parent] == m[parent].(left := tmp2)
        && m'[sibling] == m[sibling].(right := parent)
        && m'[tmp1] == m[tmp1].(parent := sibling, color := Black)
        && (tmp2 != null ==> m'[tmp2] == m[tmp2].(parent := parent))
    {
      var tmp2 := sibling.right;
      parent.left := tmp2;
      sibling.right := parent;
      tmp1.parent, tmp1.color := sibling, Black;
      if tmp2 != null {
        tmp2.parent := parent;
      }
    }

    /** Cases 2 and 3 of the insertion: node is the right child of the left child of gparent. */
    method InsertInnerLeft(node: RbNode, parent: RbNode, gparent: RbNode,
                           ghost S: set<RbNode>, ghost up: Path<RbNode>, ghost sub: Tree<RbNode>)
      requires Sees(S, up, sub) && sub.Node? && sub.item == gparent && sub.left.Node? && sub.left.item == parent
      requires sub.left.right.Node? && sub.left.right.item == node
      requires IsBlack(sub.left.right.left) && IsBlack(sub.left.right.right)
      modifies this, S
      ensures Sees(S, up, TurnRight(sub.(left := TurnLeft(sub.left, Red)), Red))
    {
      ghost var m, r := Snap(S), root;
      ArcRightReady(m, r, up, sub);
      InsertCase2Left(node, parent, S);
      ghost var m1 := Snap(S);
      var tmp := node.right;
      InsertCase3Left(node, gparent, tmp, S);
      InsertInnerLeftWrites(m, m1, Snap(S), node, parent, gparent);
      ArcRightFocus(m, Snap(S), r, up, sub, Red);
      ArcRightItems(sub, Red);
    }

    /** Case 3 of the insertion alone: node is the left child of the left child of gparent. */
    method InsertOuterLeft(parent: RbNode, gparent: RbNode,
                           ghost S: set<RbNode>, ghost up: Path<RbNode>, ghost sub: Tree<RbNode>)
      requires Sees(S, up, sub) && sub.Node? && sub.item == gparent && sub.left.Node? && sub.left.item == parent
      requires IsBlack(sub.left.right)
      modifies this, S
      ensures Sees(S, up, TurnRight(sub, Red))
    {
      ghost var m, r := Snap(S), root;
      RotateRightReady(m, r, up, sub);
      var tmp := parent.right;
      InsertCase3Left(parent, gparent, tmp, S);
      InsertOuterLeftWrites(m, Snap(S), gparent);
      RotateRightWrites(m, Snap(S), gparent, Red);
      RotateRightFocus(m, r, up, sub, Red);
    }

    /** Cases 2 and 3 of the insertion: node is the left child of the right child of gparent. */
    method InsertInnerRight(node: RbNode, parent: RbNode, gparent: RbNode,
                           ghost S: set<RbNode>, ghost up: Path<RbNode>, ghost sub: Tree<RbNode>)
      requires Sees(S, up, sub) && sub.Node? && sub.item == gparent && sub.right.Node? && sub.right.item == parent
      requires sub.right.left.Node? && sub.right.left.item == node
      requires IsBlack(sub.right.left.right) && IsBlack(sub.right.left.left)
      modifies this, S
      ensures Sees(S, up, TurnLeft(sub.(right := TurnRight(sub.right, Red)), Red))
    {
      ghost var m, r := Snap(S), root;
      ArcLeftReady(m, r, up, sub);
      InsertCase2Right(node, parent, S);
      ghost var m1 := Snap(S);
      var tmp := node.left;
      InsertCase3Right(node, gparent, tmp, S);
      InsertInnerRightWrites(m, m1, Snap(S), node, parent, gparent);
      ArcLeftFocus(m, Snap(S), r, up, sub, Red);
      ArcLeftItems(sub, Red);
    }

    /** Case 3 of the insertion alone: node is the right child of the right child of gparent. */
    method InsertOuterRight(parent: RbNode, gparent: RbNode,
                           ghost S: set<RbNode>, ghost up: Path<RbNode>, ghost sub: Tree<RbNode>)
      requires Sees(S, up, sub) && sub.Node? && sub.item == gparent && sub.right.Node? && sub.right.item == parent
      requires IsBlack(sub.right.left)
      modifies this, S
      ensures Sees(S, up, TurnLeft(sub, Red))
    {
      ghost var m, r := Snap(S), root;
      RotateLeftReady(m, r, up, sub);
      var tmp := parent.left;
      InsertCase3Right(parent, gparent, tmp, S);
      InsertOuterRightWrites(m, Snap(S), gparent);
      RotateLeftWrites(m, Snap(S), gparent, Red);
      RotateLeftFocus(m, r, up, sub, Red);
    }

    /** One round of the insertion below a left child: recolour and climb, or rotate and be done. */
    method InsertRoundLeft(node: RbNode, parent: RbNode, gparent: RbNode,
                           ghost S: set<RbNode>, ghost p: Path<RbNode>, ghost t: Tree<RbNode>) returns (climb: bool)
      requires Sees(S, p, t) && t.Node? && t.item == node && IsBlack(t.left) && IsBlack(t.right)
      requires p != Top && p.item == parent && IsBlack(Sibling(p)) && p.up.InLeft? && p.up.item == gparent
      modifies this, S
      ensures climb <==> !IsBlack(Sibling(p.up))
      ensures climb ==> Sees(S, p.up.up, Flipped(p, t))
      ensures !climb ==> Sees(S, p.up.up, Turned(p, t))
    {
      ghost var m, sub := Snap(S), Under(p.up, Under(p, t, p.color), p.up.color);
      UncleCell(m, root, p, t);
      SubItems(p, t);
      var tmp := gparent.right;
      if tmp != null && tmp.color.Red? {
        FlipFocus(m, root, p, t);
        InsertCase1(parent, gparent, tmp, S);
        return true;
      }
      Rise(m, root, p, t);
      Rise(m, root, p.up, Under(p, t, p.color));
      tmp := parent.right;
      ChildSide(m, root, p, t);
      if node == tmp {
        InsertInnerLeft(node, parent, gparent, S, p.up.up, sub);
      } else {
        InsertOuterLeft(parent, gparent, S, p.up.up, sub);
      }
      return false;
    }

    /** One round of the insertion below a right child: recolour and climb, or rotate and be done. */
    method InsertRoundRight(node: RbNode, parent: RbNode, gparent: RbNode,
                           ghost S: set<RbNode>, ghost p: Path<RbNode>, ghost t: Tree<RbNode>) returns (climb: bool)
      requires Sees(S, p, t) && t.Node? && t.item == node && IsBlack(t.right) && IsBlack(t.left)
      requires p != Top && p.item == parent && IsBlack(Sibling(p)) && p.up.InRight? && p.up.item == gparent
      modifies this, S
      ensures climb <==> !IsBlack(Sibling(p.up))
      ensures climb ==> Sees(S, p.up.up, Flipped(p, t))
      ensures !climb ==> Sees(S, p.up.up, Turned(p, t))
    {
      ghost var m, sub := Snap(S), Under(p.up, Under(p, t, p.color), p.up.color);
      UncleCell(m, root, p, t);
      SubItems(p, t);
      var tmp := gparent.left;
      if tmp != null && tmp.color.Red? {
        FlipFocus(m, root, p, t);
        InsertCase1(parent, gparent, tmp, S);
        return true;
      }
      Rise(m, root, p, t);
      Rise(m, root, p.up, Under(p, t, p.color));
      tmp := parent.left;
      ChildSide(m, root, p, t);
      if node == tmp {
        InsertInnerRight(node, parent, gparent, S, p.up.up, sub);
      } else {
        InsertOuterRight(parent, gparent, S, p.up.up, sub);
      }
      return false;
    }

    /** Case 1 of the removal, the deficient subtree being a left child. */
    method EraseLowerLeft(parent: RbNode, sibling: RbNode, ghost S: set<RbNode>, ghost p: Path<RbNode>,
      ghost t: Tree<RbNode>)
      requires Sees(S, p, t) && p.InLeft? && p.item == parent && p.right.Node? && p.right.item == sibling
      requires p.right.left.Node? && p.right.left.color.Black?
      modifies this, S
      ensures Sees(S, Lowered(p), t)
    {
      ghost var m, r, sub := Snap(S), root, Under(p, t, p.color);
      Rise(m, r, p, t);
      RotateLeftReady(m, r, p.up, sub);
      EraseCase1Left(parent, sibling, S);
      EraseLowerLeftWrites(m, Snap(S), parent);
      RotateLeftWrites(m, Snap(S), parent, Red);
      RotateLeftFocus(m, r, p.up, sub, Red);
      Descend(Snap(S), root, p.up, TurnLeft(sub, Red));
      Descend(Snap(S), root, Lowered(p).up, TurnLeft(sub, Red).left);
    }

    /** Case 4 of the removal. */
    method EraseOuterLeft(parent: RbNode, sibling: RbNode, tmp1: RbNode,
                          ghost S: set<RbNode>, ghost up: Path<RbNode>, ghost sub: Tree<RbNode>)
      requires Sees(S, up, sub) && sub.Node? && sub.item == parent && sub.right.Node? && sub.right.item == sibling
      requires sub.right.right.Node? && sub.right.right.item == tmp1
      modifies this, S
      ensures Sees(S, up, TurnLeft(sub.(right := sub.right.(right := sub.right.right.(color := Black))), Black))
    {
      ghost var m, r := Snap(S), root;
      ghost var m1, sub1 := Paint(m, tmp1, Black), sub.(right := sub.right.(right := sub.right.right.(color := Black)));
      RotateLeftReady(m, r, up, sub);
      FarCellRight(m, r, up, sub);
      PaintGrandchild(m, r, up, sub);
      RotateLeftReady(m1, r, up, sub1);
      EraseCase4Left(parent, sibling, tmp1, S);
      EraseOuterLeftWrites(m, Snap(S), parent, tmp1);
      RotateLeftWrites(m1, Snap(S), parent, Black);
      RotateLeftFocus(m1, r, up, sub1, Black);
      assert Items(sub1.right) == Items(sub.right);
      assert Items(TurnLeft(sub1, Black)) == Items(sub1);
    }

    /** Cases 3 and 4 of the removal. */
    method EraseInnerLeft(parent: RbNode, sibling: RbNode, tmp2: RbNode,
                          ghost S: set<RbNode>, ghost up: Path<RbNode>, ghost sub: Tree<RbNode>)
      requires Sees(S, up, sub) && sub.Node? && sub.item == parent && sub.right.Node? && sub.right.item == sibling
      requires sub.right.left.Node? && sub.right.left.item == tmp2 && IsBlack(sub.right.left.right)
      modifies this, S
      ensures Sees(S, up, TurnLeft(sub.(right := TurnRight(sub.right, Black)), Black))
    {
      ghost var m, r := Snap(S), root;
      ArcLeftReady(m, r, up, sub);
      EraseCase3Left(parent, sibling, tmp2, S);
      ghost var m1 := Snap(S);
      EraseCase4Left(parent, tmp2, sibling, S);
      EraseInnerLeftWrites(m, m1, Snap(S), parent, sibling, tmp2);
      ArcLeftFocus(m, Snap(S), r, up, sub, Black);
      ArcLeftItems(sub, Black);
    }

    /** Case 1 of the removal, the deficient subtree being a right child. */
    method EraseLowerRight(parent: RbNode, sibling: RbNode, ghost S: set<RbNode>, ghost p: Path<RbNode>,
      ghost t: Tree<RbNode>)
      requires Sees(S, p, t) && p.InRight? && p.item == parent && p.left.Node? && p.left.item == sibling
      requires p.left.right.Node? && p.left.right.color.Black?
      modifies this, S
      ensures Sees(S, Lowered(p), t)
    {
      ghost var m, r, sub := Snap(S), root, Under(p, t, p.color);
      Rise(m, r, p, t);
      RotateRightReady(m, r, p.up, sub);
      EraseCase1Right(parent, sibling, S);
      EraseLowerRightWrites(m, Snap(S), parent);
      RotateRightWrites(m, Snap(S), parent, Red);
      RotateRightFocus(m, r, p.up, sub, Red);
      Descend(Snap(S), root, p.up, TurnRight(sub, Red));
      Descend(Snap(S), root, Lowered(p).up, TurnRight(sub, Red).right);
    }

    /** Case 4 of the removal. */
    method EraseOuterRight(parent: RbNode, sibling: RbNode, tmp1: RbNode,
                          ghost S: set<RbNode>, ghost up: Path<RbNode>, ghost sub: Tree<RbNode>)
      requires Sees(S, up, sub) && sub.Node? && sub.item == parent && sub.left.Node? && sub.left.item == sibling
      requires sub.left.left.Node? && sub.left.left.item == tmp1
      modifies this, S
      ensures Sees(S, up, TurnRight(sub.(left := sub.left.(left := sub.left.left.(color := Black))), Black))
    {
      ghost var m, r := Snap(S), root;
      ghost var m1, sub1 := Paint(m, tmp1, Black), sub.(left := sub.left.(left := sub.left.left.(color := Black)));
      RotateRightReady(m, r, up, sub);
      FarCellLeft(m, r, up, sub);
      PaintGrandchild(m, r, up, sub);
      RotateRightReady(m1, r, up, sub1);
      EraseCase4Right(parent, sibling, tmp1, S);
      EraseOuterRightWrites(m, Snap(S), parent, tmp1);
      RotateRightWrites(m1, Snap(S), parent, Black);
      RotateRightFocus(m1, r, up, sub1, Black);
      assert Items(sub1.left) == Items(sub.left);
      assert Items(TurnRight(sub1, Black)) == Items(sub1);
    }

    /** Cases 3 and 4 of the removal. */
    method EraseInnerRight(parent: RbNode, sibling: RbNode, tmp2: RbNode,
                          ghost S: set<RbNode>, ghost up: Path<RbNode>, ghost sub: Tree<RbNode>)
      requires Sees(S, up, sub) && sub.Node? && sub.item == parent && sub.left.Node? && sub.left.item == sibling
      requires sub.left.right.Node? && sub.left.right.item == tmp2 && IsBlack(sub.left.right.left)
      modifies this, S
      ensures Sees(S, up, TurnRight(sub.(left := TurnLeft(sub.left, Black)), Black))
    {
      ghost var m, r := Snap(S), root;
      ArcRightReady(m, r, up, sub);
      EraseCase3Right(parent, sibling, tmp2, S);
      ghost var m1 := Snap(S);
      EraseCase4Right(parent, tmp2, sibling, S);
      EraseInnerRightWrites(m, m1, Snap(S), parent, sibling, tmp2);
      ArcRightFocus(m, Snap(S), r, up, sub, Black);
      ArcRightItems(sub, Black);
    }

    /** Cases 2 to 4 of the removal, below a black right sibling. */
    method EraseSettleLeft(parent: RbNode, sibling: RbNode, ghost S: set<RbNode>, ghost p: Path<RbNode>,
      ghost t: Tree<RbNode>)
      returns (climb: bool)
      requires Sees(S, p, t) && p.InLeft? && p.item == parent && p.right.Node? && p.right.item == sibling
      requires p.right.color.Black? && GoodNephews(p)
      modifies this, S
      ensures Sees(S, p.up, Settled(p, t)) && (climb <==> BlackNephews(p) && p.color.Black?)
    {
      ghost var m, sub := Snap(S), Under(p, t, p.color);
      Rise(m, root, p, t);
      RotateLeftReady(m, root, p.up, sub);
      NephewCells(m, root, p, t);
      UnderItems(p, t, p.color);
      var tmp1 := sibling.right;
      if tmp1 == null || tmp1.color.Black? {
        var tmp2 := sibling.left;
        if tmp2 == null || tmp2.color.Black? {
          climb := EraseCase2(parent, sibling, S, p, t);
        } else {
          EraseInnerLeft(parent, sibling, tmp2, S, p.up, sub);
          climb := false;
        }
      } else {
        EraseOuterLeft(parent, sibling, tmp1, S, p.up, sub);
        climb := false;
      }
    }

    /** One round of the removal for a left child. */
    method EraseRoundLeft(parent: RbNode, ghost S: set<RbNode>, ghost p: Path<RbNode>, ghost t: Tree<RbNode>)
      returns (climb: bool)
      requires Sees(S, p, t) && p.InLeft? && p.item == parent && p.right.Node?
      requires p.right.color.Red? ==>
        Sibling(Lowered(p)).Node? && Sibling(Lowered(p)).color.Black? && GoodNephews(Lowered(p))
      requires p.right.color.Black? ==> GoodNephews(p)
      modifies this, S
      ensures
        var q := if p.right.color.Red? then Lowered(p) else p;
        && Sees(S, q.up, Settled(q, t))
        && (climb <==> BlackNephews(q) && q.color.Black?)
    {
      Rise(Snap(S), root, p, t);
      RotateLeftReady(Snap(S), root, p.up, Under(p, t, p.color));
      UnderItems(p, t, p.color);
      var sibling := parent.right;
      if sibling.color.Red? {
        var tmp1 := sibling.left;
        EraseLowerLeft(parent, sibling, S, p, t);
        climb := EraseSettleLeft(parent, tmp1, S, Lowered(p), t);
      } else {
        climb := EraseSettleLeft(parent, sibling, S, p, t);
      }
    }

    /** Cases 2 to 4 of the removal, below a black left sibling. */
    method EraseSettleRight(parent: RbNode, sibling: RbNode, ghost S: set<RbNode>, ghost p: Path<RbNode>,
      ghost t: Tree<RbNode>)
      returns (climb: bool)
      requires Sees(S, p, t) && p.InRight? && p.item == parent && p.left.Node? && p.left.item == sibling
      requires p.left.color.Black? && GoodNephews(p)
      modifies this, S
      ensures Sees(S, p.up, Settled(p, t)) && (climb <==> BlackNephews(p) && p.color.Black?)
    {
      ghost var m, sub := Snap(S), Under(p, t, p.color);
      Rise(m, root, p, t);
      RotateRightReady(m, root, p.up, sub);
      NephewCells(m, root, p, t);
      UnderItems(p, t, p.color);
      var tmp1 := sibling.left;
      if tmp1 == null || tmp1.color.Black? {
        var tmp2 := sibling.right;
        if tmp2 == null || tmp2.color.Black? {
          climb := EraseCase2(parent, sibling, S, p, t);
        } else {
          EraseInnerRight(parent, sibling, tmp2, S, p.up, sub);
          climb := false;
        }
      } else {
        EraseOuterRight(parent, sibling, tmp1, S, p.up, sub);
        climb := false;
      }
    }

    /** One round of the removal for a right child. */
    method EraseRoundRight(parent: RbNode, ghost S: set<RbNode>, ghost p: Path<RbNode>, ghost t: Tree<RbNode>)
      returns (climb: bool)
      requires Sees(S, p, t) && p.InRight? && p.item == parent && p.left.Node?
      requires p.left.color.Red? ==>
        Sibling(Lowered(p)).Node? && Sibling(Lowered(p)).color.Black? && GoodNephews(Lowered(p))
      requires p.left.color.Black? ==> GoodNephews(p)
      modifies this, S
      ensures
        var q := if p.left.color.Red? then Lowered(p) else p;
        && Sees(S, q.up, Settled(q, t))
        && (climb <==> BlackNephews(q) && q.color.Black?)
    {
      Rise(Snap(S), root, p, t);
      RotateRightReady(Snap(S), root, p.up, Under(p, t, p.color));
      UnderItems(p, t, p.color);
      var sibling := parent.left;
      if sibling.color.Red? {
        var tmp1 := sibling.right;
        EraseLowerRight(parent, sibling, S, p, t);
        climb := EraseSettleRight(parent, tmp1, S, Lowered(p), t);
      } else {
        climb := EraseSettleRight(parent, sibling, S, p, t);
      }
    }

    /** Case 1 of the insertion: the three stores of colours. */
    method InsertCase1(parent: RbNode, gparent: RbNode, tmp: RbNode, ghost S: set<RbNode>)
      requires {parent, gparent, tmp} <= S && parent != gparent && parent != tmp && gparent != tmp
      requires parent.parent == gparent && tmp.parent == gparent
      modifies S
      ensures Snap(S) == FlipColors(old(Snap(S)), tmp, parent, gparent)
    {
      tmp.parent, tmp.color := gparent, Black;
      parent.parent, parent.color := gparent, Black;
      gparent.color := Red;
    }

    /** rb_parent */
    method ParentOf(node: RbNode, ghost S: set<RbNode>, ghost p: Path<RbNode>,
      ghost t: Tree<RbNode>) returns (parent: RbNode?)
      requires Sees(S, p, t) && t.Node? && t.item == node
      ensures parent == Above(p)
    {
      Descend(Snap(S), root, p, t);
      parent := node.parent;
    }

    /** A red node, whose parent may be red too. */
    ghost predicate Reddened(S: set<RbNode>, p: Path<RbNode>, t: Tree<RbNode>)
      reads this, S
    {
      Sees(S, p, t) && t.Node? && t.color.Red? && Ok(t) && Fits(p, Height(t))
    }

    /** __rb_fixup_violation */
    method FixupViolation(node': RbNode, ghost S: set<RbNode>, ghost p': Path<RbNode>, ghost t': Tree<RbNode>)
      requires Reddened(S, p', t') && t'.item == node'
      modifies this, S
      ensures Sees(S, Top, Fixup(p', t'))
    {
      var node := node';
      ghost var p, t := p', t';
      var parent := ParentOf(node, S, p, t);
      while parent != null
        invariant Reddened(S, p, t) && t.item == node && parent == Above(p) && Fixup(p, t) == Fixup(p', t')
        decreases p
      {
        var climb: bool;
        climb, node, parent := FixupRound(node, parent, S, p, t);
        if !climb {
          return;
        }
        p, t := p.up.up, Flipped(p, t);
      }
      Blacken(node, S, p, t);
    }

    /** One round of the loop: done, or two levels higher. */
    method FixupRound(node: RbNode, parent: RbNode, ghost S: set<RbNode>, ghost p: Path<RbNode>, ghost t: Tree<RbNode>)
      returns (climb: bool, gparent: RbNode, above: RbNode?)
      requires Reddened(S, p, t) && t.item == node && parent == Above(p)
      modifies this, S
      ensures !climb ==> Sees(S, Top, Fixup(p, t))
      ensures climb ==>
        && p != Top && p.up != Top && Sibling(p.up).Node? && gparent == p.up.item && above == Above(p.up.up)
        && Reddened(S, p.up.up, Flipped(p, t)) && Fixup(p, t) == Fixup(p.up.up, Flipped(p, t))
    {
      Rise(Snap(S), root, p, t);
      FixupStep(p, t);
      climb, gparent, above := false, node, null;
      if parent.color.Black? {
        Finish(S, p, t);
        return;
      }
      climb, gparent := InsertRound(node, parent, S, p, t);
      if climb {
        above := ParentOf(gparent, S, p.up.up, Flipped(p, t));
      } else {
        Finish(S, p.up.up, Turned(p, t));
      }
    }

    /** The root turns black. */
    method Blacken(node: RbNode, ghost S: set<RbNode>, ghost p: Path<RbNode>, ghost t: Tree<RbNode>)
      requires Sees(S, p, t) && t.Node? && t.item == node && p == Top
      modifies S
      ensures Sees(S, Top, t.(color := Black)) && root == old(root)
    {
      PaintFocus(Snap(S), root, p, t, Black);
      Descend(Snap(S), root, p, t);
      node.parent, node.color := null, Black;
      assert Snap(S) == Paint(old(Snap(S)), node, Black);
    }

    /** One round below a red parent. */
    method InsertRound(node: RbNode, parent: RbNode, ghost S: set<RbNode>, ghost p: Path<RbNode>, ghost t: Tree<RbNode>)
      returns (climb: bool, gparent: RbNode)
      requires Sees(S, p, t) && t.Node? && t.item == node && IsBlack(t.left) && IsBlack(t.right)
      requires p != Top && p.up != Top && p.item == parent && IsBlack(Sibling(p))
      modifies this, S
      ensures gparent == p.up.item && (climb <==> !IsBlack(Sibling(p.up)))
      ensures climb ==> Sees(S, p.up.up, Flipped(p, t))
      ensures !climb ==> Sees(S, p.up.up, Turned(p, t))
    {
      UncleCell(Snap(S), root, p, t);
      Rise(Snap(S), root, p, t);
      ChildSide(Snap(S), root, p.up, Under(p, t, p.color));
      gparent := parent.parent;
      if parent != gparent.right {
        climb := InsertRoundLeft(node, parent, gparent, S, p, t);
      } else {
        climb := InsertRoundRight(node, parent, gparent, S, p, t);
      }
    }

    lemma {:induction false} Finish(S: set<RbNode>, p: Path<RbNode>, t: Tree<RbNode>)
      requires Sees(S, p, t)
      ensures Sees(S, Top, Plug(p, t))
    {
      RiseAll(Snap(S), root, p, t);
      PlugApart(p, t);
    }

    /** Case 2 of the removal. */
    method EraseCase2(parent: RbNode, sibling: RbNode, ghost S: set<RbNode>, ghost p: Path<RbNode>,
      ghost t: Tree<RbNode>)
      returns (climb: bool)
      requires Sees(S, p, t) && p != Top && p.item == parent && Sibling(p).Node? && Sibling(p).item == sibling
      modifies S
      ensures Sees(S, p.up, Drained(p, t)) && root == old(root) && (climb <==> p.color.Black?)
    {
      ghost var m := Snap(S);
      DrainFocus(m, root, p, t);
      NephewCells(m, root, p, t);
      DrainedItems(p, t);
      climb := EraseCase2Stores(parent, sibling, S);
    }

    method EraseCase2Stores(parent: RbNode, sibling: RbNode, ghost S: set<RbNode>) returns (climb: bool)
      requires {parent, sibling} <= S && parent != sibling && sibling.parent == parent
      modifies S
      ensures Snap(S) == Paint(Paint(old(Snap(S)), sibling, Red), parent, Black)
      ensures climb <==> old(parent.color.Black?)
    {
      sibling.parent, sibling.color := parent, Red;
      climb := parent.color.Black?;
      if parent.color.Red? {
        parent.color := Black;
      }
    }

    /** The subtree lacks one black node. */
    ghost predicate Lacks(S: set<RbNode>, p: Path<RbNode>, t: Tree<RbNode>)
      reads this, S
    {
      Sees(S, p, t) && Ok(t) && IsBlack(t) && Fits(p, Height(t) + 1)
    }

    /** One round of the removal. */
    method EraseRound(node: RbNode?, parent: RbNode, ghost S: set<RbNode>, ghost p: Path<RbNode>, ghost t: Tree<RbNode>)
      returns (climb: bool)
      requires Lacks(S, p, t) && p != Top && p.item == parent && node == Root(t)
      modifies this, S
      ensures climb ==>
        && Sibling(p).Node? && p.color.Black? && Lacks(S, p.up, Drained(p, t))
        && EraseColor(p, t) == EraseColor(p.up, Drained(p, t))
      ensures !climb ==> Sees(S, Top, EraseColor(p, t))
    {
      EraseStep(p, t);
      HoleSide(Snap(S), root, p, t);
      if node != parent.right {
        climb := EraseRoundLeft(parent, S, p, t);
      } else {
        climb := EraseRoundRight(parent, S, p, t);
      }
      ghost var q := if Sibling(p).color.Red? then Lowered(p) else p;
      if !climb {
        Finish(S, q.up, Settled(q, t));
      }
    }

    /** One round of the loop: done, or one level higher. */
    method EraseClimb(node: RbNode?, parent: RbNode, ghost S: set<RbNode>, ghost p: Path<RbNode>, ghost t: Tree<RbNode>)
      returns (climb: bool, above: RbNode?)
      requires Lacks(S, p, t) && p != Top && p.item == parent && node == Root(t)
      modifies this, S
      ensures climb ==>
        && p.up != Top && Sibling(p).Node? && above == p.up.item && Lacks(S, p.up, Drained(p, t))
        && Root(Drained(p, t)) == parent && EraseColor(p, t) == EraseColor(p.up, Drained(p, t))
      ensures !climb ==> Sees(S, Top, EraseColor(p, t))
    {
      above := null;
      climb := EraseRound(node, parent, S, p, t);
      if climb {
        above := ParentOf(parent, S, p.up, Drained(p, t));
        climb := above != null;
      }
    }

    /** rb_erase_color: the hole below parent lacks one black node. */
    method RebalanceErased(parent': RbNode, ghost S: set<RbNode>, ghost p': Path<RbNode>)
      requires Sees(S, p', Leaf) && p' != Top && p'.item == parent' && Fits(p', 1)
      modifies this, S
      ensures Sees(S, Top, EraseColor(p', Leaf))
    {
      var node: RbNode?, parent := null, parent';
      ghost var p, t: Tree<RbNode> := p', Leaf;
      while true
        invariant Lacks(S, p, t) && p != Top && p.item == parent && node == Root(t)
          && EraseColor(p, t) == EraseColor(p', Leaf)
        decreases p
      {
        var climb, above := EraseClimb(node, parent, S, p, t);
        if !climb {
          return;
        }
        p, t := p.up, Drained(p, t);
        node, parent := parent, above;
      }
    }

    /** Replace a node by its only child, which takes over the node's colour. */
    method EraseOneChild(node: RbNode, child: RbNode?, ghost S: set<RbNode>)
      requires node in S && child != node && InOrNull(Snap(S), child)
      requires node.parent != node && InOrNull(Snap(S), node.parent) && (child != null ==> child != node.parent)
      modifies this, S
      ensures Snap(S) == Splice(old(Snap(S)), node, child, old(node.parent), old(node.color))
      ensures root == ChangeRoot(old(root), child, old(node.parent))
    {
      var parent, color := node.parent, node.color;
      if parent != null {
        if parent.left == node {
          parent.left := child;
        } else {
          parent.right := child;
        }
      } else {
        root := child;
      }
      if child != null {
        child.parent, child.color := parent, color;
      }
    }

    /** Cases 2 and 3 of rb_erase: the links of the successor and its surroundings. */
    method EraseMoveSuccessor(node: RbNode, successor: RbNode, parent: RbNode, ghost S: set<RbNode>)
      requires MovedShape(Snap(S), node, successor, parent)
      modifies this, S
      ensures MovedCells(old(Snap(S)), Snap(S), node, successor, parent)
      ensures root == ChangeRoot(old(root), successor, old(node.parent))
    {
      var child2 := successor.right;
      ghost var m := Snap(S);
      EraseRelink(node, successor, parent, S);
      ghost var m1 := Snap(S);
      EraseHandOver(node, successor, S);
      ghost var m2 := Snap(S);
      EraseAdoptLast(child2, parent, S);
      MovedSteps(m, m1, m2, Snap(S), node, successor, parent);
    }

    method EraseAdoptLast(child2: RbNode?, parent: RbNode, ghost S: set<RbNode>)
      requires InOrNull(Snap(S), child2)
      modifies S
      ensures Snap(S) == SetParentColor(old(Snap(S)), child2, parent, Black)
    {
      if child2 != null {
        child2.parent, child2.color := parent, Black;
      }
    }

    /** The children of the erased node move below the successor. */
    method EraseRelink(node: RbNode, successor: RbNode, parent: RbNode, ghost S: set<RbNode>)
      requires MovedShape(Snap(S), node, successor, parent)
      modifies S
      ensures RelinkCells(old(Snap(S)), Snap(S), node, successor, parent)
    {
      var child := node.right;
      if successor != child {
        parent.left := successor.right;
        successor.right := child;
        child.parent := successor;
      }
      var tmp := node.left;
      successor.left := tmp;
      tmp.parent := successor;
    }

    /** The successor takes over the node's place below its parent. */
    method EraseHandOver(node: RbNode, successor: RbNode, ghost S: set<RbNode>)
      requires {node, successor} <= S && node != successor && node.parent !in {node, successor}
        && InOrNull(Snap(S), node.parent)
      modifies this, S
      ensures HandOverCells(old(Snap(S)), Snap(S), node, successor)
      ensures root == ChangeRoot(old(root), successor, old(node.parent))
    {
      var above := node.parent;
      if above != null {
        if above.left == node {
          above.left := successor;
        } else {
          above.right := successor;
        }
      } else {
        root := successor;
      }
      successor.parent, successor.color := node.parent, node.color;
    }

    /** The walk of rb_erase to the leftmost node of the right subtree. */
    method FindSuccessor(node: RbNode, ghost S: set<RbNode>, ghost p: Path<RbNode>, ghost t: Tree<RbNode>)
      returns (successor: RbNode, parent: RbNode)
      requires Sees(S, p, t) && t.Node? && t.item == node && t.right.Node?
      ensures successor == Leftmost(t.right).item && parent == SuccessorParent(t, p)
    {
      ghost var q, u := InRight(t.left, t.item, t.color, p), t.right;
      Descend(Snap(S), root, p, t);
      UnderItems(q, u, t.color);
      var child := node.right;
      successor, parent := child, child;
      Descend(Snap(S), root, q, u);
      var tmp := child.left;
      while tmp != null
        invariant Sees(S, q, u) && u.Node? && u.item == successor && tmp == Root(u.left)
        invariant Leftmost(u) == Leftmost(t.right)
        invariant LeftSpine(u, q) == LeftSpine(t.right, InRight(t.left, t.item, t.color, p))
        invariant q != Top && (if u == t.right then parent == successor else parent == q.item)
        decreases u
      {
        Descend(Snap(S), root, q, u);
        parent := successor;
        successor := tmp;
        q, u := InLeft(u.item, u.color, u.right, q), u.left;
        Descend(Snap(S), root, q, u);
        UnderItems(q, u, q.color);
        tmp := successor.left;
      }
    }

    /** rb_erase for a node with two children. */
    method EraseTwo(node: RbNode, ghost S: set<RbNode>, ghost p: Path<RbNode>, ghost t: Tree<RbNode>)
      returns (rebalance: RbNode?)
      requires Sees(S, p, t) && t.Node? && t.item == node && t.left.Node? && t.right.Node?
      modifies this, S
      ensures
        var s, q := Leftmost(t.right), SuccessorPath(p, t);
        && q != Top && Sees(S, q, Recolored(s.right, Black))
        && rebalance == if s.right.Leaf? && s.color.Black? then q.item else null
    {
      ghost var m, r := Snap(S), root;
      MovedReady(m, r, p, t);
      Descend(m, r, p, t);
      var successor, parent := FindSuccessor(node, S, p, t);
      var child2, color := successor.right, successor.color;
      EraseMoveSuccessor(node, successor, parent, S);
      MovedWrites(m, Snap(S), node, successor, parent);
      TransplantIs(m, p, t);
      TransplantDone(m, Snap(S), r, p, t);
      rebalance := if child2 == null && color.Black? then parent else null;
    }

    /** rb_erase: unlink the node; a result says below which node a black node is missing. */
    method Erase(node: RbNode, ghost S: set<RbNode>, ghost p: Path<RbNode>, ghost t: Tree<RbNode>)
      returns (rebalance: RbNode?, ghost q: Path<RbNode>)
      requires Sees(S, p, t) && t.Node? && t.item == node
      modifies this, S
      ensures rebalance == null ==> Sees(S, Top, Remove(p, t))
      ensures rebalance != null ==>
        && q != Top && q.item == rebalance && Sees(S, q, Leaf) && Remove(p, t) == EraseColor(q, Leaf)
        && Lacking(t) && q == (if t.left.Leaf? then p else SuccessorPath(p, t))
    {
      ghost var m := Snap(S);
      Descend(m, root, p, t);
      var child, tmp := node.right, node.left;
      if tmp == null || child == null {
        ghost var c := if tmp == null then t.right else t.left;
        q := p;
        OnlyChildReady(m, root, p, t, c);
        SpliceFocus(m, root, p, t, c, t.color);
        var parent, color := node.parent, node.color;
        EraseOneChild(node, if tmp == null then child else tmp, S);
        rebalance := if tmp == null && child == null && color.Black? then parent else null;
        if rebalance == null {
          Finish(S, p, Recolored(c, t.color));
        }
      } else {
        q := SuccessorPath(p, t);
        rebalance := EraseTwo(node, S, p, t);
        if rebalance == null {
          Finish(S, q, Recolored(Leftmost(t.right).right, Black));
        }
      }
    }

    /**
     rb_remove: from any valid tree the node is taken out; what remains is a valid tree with
     consistent parent links that holds the other nodes in the same order.
     */
    method RemoveNode(node: RbNode, ghost S: set<RbNode>, ghost whole: Tree<RbNode>) returns (ghost rest: Tree<RbNode>)
      requires Sees(S, Top, whole) && Valid(whole) && node in Items(whole)
      modifies this, S
      ensures Sees(S, Top, rest) && Valid(rest) && node !in Items(rest)
      ensures exists i :: 0 <= i < |Inorder(whole)| && Inorder(whole)[i] == node
                          && Inorder(rest) == Inorder(whole)[..i] + Inorder(whole)[i+1..]
      ensures node.left == null && node.right == null && node.parent == null
    {
      ghost var p, t := Locate(whole, Top, node);
      DescendAll(Snap(S), root, p, t);
      PlugApart(p, t);
      rest := Remove(p, t);
      RemoveValid(p, t);
      RemoveOrder(p, t);
      EraseAndRebalance(node, S, p, t);
      ClearNode(node, S, rest);
    }

    method ClearNode(node: RbNode, ghost S: set<RbNode>, ghost rest: Tree<RbNode>)
      requires Sees(S, Top, rest) && node in S && node !in Items(rest)
      modifies node
      ensures Sees(S, Top, rest) && node.left == null && node.right == null && node.parent == null
    {
      ghost var m := Snap(S);
      node.left, node.right := null, null;
      node.parent, node.color := null, Red;
      FocusFrame(m, Snap(S), root, Top, rest);
    }

    /** The two halves of rb_remove: unlink, then rebalance if a black node is missing. */
    method EraseAndRebalance(node: RbNode, ghost S: set<RbNode>, ghost p: Path<RbNode>, ghost t: Tree<RbNode>)
      requires Sees(S, p, t) && t.Node? && t.item == node && Valid(Plug(p, t))
      modifies this, S
      ensures Sees(S, Top, Remove(p, t))
    {
      var rebalance;
      ghost var q;
      rebalance, q := Erase(node, S, p, t);
      if rebalance != null {
        RebalanceFits(p, t);
        RebalanceErased(rebalance, S, q);
      }
    }

    /** __rb_link_node followed by __rb_fixup_violation, as in rb_insert. */
    method InsertNode(node: RbNode, parent: RbNode?, goLeft: bool, ghost S: set<RbNode>, ghost p: Path<RbNode>)
      returns (ghost rest: Tree<RbNode>)
      requires Sees(S, p, Leaf) && Valid(Plug(p, Leaf)) && node in S && node !in PathItems(p)
      requires parent == Above(p) && (p != Top ==> (goLeft <==> p.InLeft?))
      modifies this, S
      ensures Sees(S, Top, rest) && Valid(rest) && Inorder(rest) == Before(p) + [node] + After(p)
    {
      ghost var t := Node(Leaf, node, Red, Leaf);
      rest := Fixup(p, t);
      UnplugValid(p, Leaf);
      FixupValid(p, t);
      FixupInorder(p, t);
      PlugInorder(p, t);
      LinkLeaf(node, parent, goLeft, S, p);
      FixupViolation(node, S, p, t);
    }

    method LinkLeaf(node: RbNode, parent: RbNode?, goLeft: bool, ghost S: set<RbNode>, ghost p: Path<RbNode>)
      requires Sees(S, p, Leaf) && node in S && node !in PathItems(p)
      requires parent == Above(p) && (p != Top ==> (goLeft <==> p.InLeft?))
      modifies this, S
      ensures Sees(S, p, Node(Leaf, node, Red, Leaf))
    {
      LinkFocus(Snap(S), root, p, node);
      node.parent, node.color := parent, Red;
      node.left, node.right := null, null;
      if parent == null {
        root := node;
      } else if goLeft {
        parent.left := node;
      } else {
        parent.right := node;
      }
      assert Snap(S) == LinkNode(old(Snap(S)), node, p);
    }

    /** rb_next_node: the node that follows in tree order, if any. */
    method NextNode(node: RbNode, ghost S: set<RbNode>, ghost p: Path<RbNode>,
      ghost t: Tree<RbNode>) returns (next: RbNode?)
      requires Sees(S, p, t) && t.Node? && t.item == node
      ensures var rest := Inorder(t.right) + After(p); if rest == [] then next == null else next == rest[0]
    {
      Descend(Snap(S), root, p, t);
      if node.right != null {
        next := FirstBelow(node.right, S, InRight(t.left, node, t.color, p), t.right);
      } else {
        next := FirstAbove(node, S, p, t);
      }
    }

    /** Down and then left as far as possible. */
    method FirstBelow(node: RbNode, ghost S: set<RbNode>, ghost p: Path<RbNode>,
      ghost t: Tree<RbNode>) returns (first: RbNode)
      requires Focus(Snap(S), root, p, t) && t.Node? && t.item == node
      ensures first == Inorder(t)[0]
    {
      ghost var m := Snap(S);
      ghost var q, u := p, t;
      first := node;
      Descend(m, root, q, u);
      while first.left != null
        invariant Focus(m, root, q, u) && u.Node? && u.item == first && first in m && m[first].left == Root(u.left)
        invariant Inorder(u)[0] == Inorder(t)[0]
        decreases u
      {
        first := first.left;
        Descend(m, root, q, u);
        assert Inorder(u)[0] == Inorder(u.left)[0];
        q, u := InLeft(u.item, u.color, u.right, q), u.left;
        Descend(m, root, q, u);
      }
      assert Inorder(u)[0] == u.item;
    }

    /** Up until the way comes from the left. */
    method FirstAbove(node': RbNode, ghost S: set<RbNode>, ghost p': Path<RbNode>,
      ghost t': Tree<RbNode>) returns (parent: RbNode?)
      requires Focus(Snap(S), root, p', t') && t'.Node? && t'.item == node'
      ensures if After(p') == [] then parent == null else parent == After(p')[0]
    {
      ghost var m := Snap(S);
      ghost var p, t := p', t';
      var node := node';
      Descend(m, root, p, t);
      parent := node.parent;
      if p != Top {
        ChildSide(m, root, p, t);
      }
      while parent != null && node == parent.right
        invariant Focus(m, root, p, t) && t.Node? && t.item == node && parent == Above(p) && After(p) == After(p')
        invariant p != Top ==> p.item in m && (p.InRight? <==> m[p.item].right == node)
        decreases p
      {
        Rise(m, root, p, t);
        p, t := p.up, Under(p, t, p.color);
        node := parent;
        Descend(m, root, p, t);
        parent := node.parent;
        if p != Top {
          ChildSide(m, root, p, t);
        }
      }
    }

    /** rb_prev_node: the node that precedes in tree order, if any. */
    method PrevNode(node: RbNode, ghost S: set<RbNode>, ghost p: Path<RbNode>,
      ghost t: Tree<RbNode>) returns (prev: RbNode?)
      requires Sees(S, p, t) && t.Node? && t.item == node
      ensures var rest := Before(p) + Inorder(t.left); if rest == [] then prev == null else prev == rest[|rest| - 1]
    {
      Descend(Snap(S), root, p, t);
      if node.left != null {
        prev := LastBelow(node.left, S, InLeft(node, t.color, t.right, p), t.left);
      } else {
        prev := LastAbove(node, S, p, t);
      }
    }

    /** Down and then right as far as possible. */
    method LastBelow(node: RbNode, ghost S: set<RbNode>, ghost p: Path<RbNode>,
      ghost t: Tree<RbNode>) returns (last: RbNode)
      requires Focus(Snap(S), root, p, t) && t.Node? && t.item == node
      ensures last == Inorder(t)[|Inorder(t)| - 1]
    {
      ghost var m := Snap(S);
      ghost var q, u := p, t;
      last := node;
      Descend(m, root, q, u);
      while last.right != null
        invariant Focus(m, root, q, u) && u.Node? && u.item == last && last in m && m[last].right == Root(u.right)
        invariant Inorder(u)[|Inorder(u)| - 1] == Inorder(t)[|Inorder(t)| - 1]
        decreases u
      {
        last := last.right;
        Descend(m, root, q, u);
        assert Inorder(u)[|Inorder(u)| - 1] == Inorder(u.right)[|Inorder(u.right)| - 1];
        q, u := InRight(u.left, u.item, u.color, q), u.right;
        Descend(m, root, q, u);
      }
      assert Inorder(u)[|Inorder(u)| - 1] == u.item;
    }

    /** Up until the way comes from the right. */
    method LastAbove(node': RbNode, ghost S: set<RbNode>, ghost p': Path<RbNode>,
      ghost t': Tree<RbNode>) returns (parent: RbNode?)
      requires Focus(Snap(S), root, p', t') && t'.Node? && t'.item == node'
      ensures if Before(p') == [] then parent == null else parent == Before(p')[|Before(p')| - 1]
    {
      ghost var m := Snap(S);
      ghost var p, t := p', t';
      var node := node';
      Descend(m, root, p, t);
      parent := node.parent;
      if p != Top {
        ChildSide(m, root, p, t);
      }
      while parent != null && node == parent.left
        invariant Focus(m, root, p, t) && t.Node? && t.item == node && parent == Above(p) && Before(p) == Before(p')
        invariant p != Top ==> p.item in m && (p.InLeft? <==> m[p.item].left == node)
        decreases p
      {
        Rise(m, root, p, t);
        p, t := p.up, Under(p, t, p.color);
        node := parent;
        Descend(m, root, p, t);
        parent := node.parent;
        if p != Top {
          ChildSide(m, root, p, t);
        }
      }
    }

    /** rb_first_node */
    method FirstNode(ghost S: set<RbNode>, ghost whole: Tree<RbNode>) returns (first: RbNode?)
      requires Sees(S, Top, whole)
      ensures if whole.Leaf? then first == null else first == Inorder(whole)[0]
    {
      first := root;
      if first != null {
        first := FirstBelow(first, S, Top, whole);
      }
    }
  }
}
