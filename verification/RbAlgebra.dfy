/** The red-black tree of lib/rbtree.c, seen as a value. */
module RbAlgebra {
  // Trees have nodes that carry an item and a colour, and a path leads from a subtree up to the
  // root (the parent links of the source). The rebalancing loops of the source become functions
  // that walk up that path; RbHeap proves that the code on nodes computes exactly these functions.

  import opened Arith

  datatype Color = Red | Black

  datatype Tree<T> = Leaf | Node(left: Tree<T>, item: T, color: Color, right: Tree<T>)

  /** The way from a subtree to the root: one frame per ancestor, nearest ancestor first. */
  datatype Path<T> =
    | Top
    | InLeft(item: T, color: Color, right: Tree<T>, up: Path<T>)
    | InRight(left: Tree<T>, item: T, color: Color, up: Path<T>)

  function Plug<T>(p: Path<T>, t: Tree<T>): Tree<T>
    decreases p
  {
    match p
    case Top => t
    case InLeft(i, c, r, up) => Plug(up, Node(t, i, c, r))
    case InRight(l, i, c, up) => Plug(up, Node(l, i, c, t))
  }

  function Inorder<T>(t: Tree<T>): seq<T> {
    match t
    case Leaf => []
    case Node(l, i, _, r) => Inorder(l) + [i] + Inorder(r)
  }

  /** What stands before and after the hole of a path, in tree order. */
  function Before<T>(p: Path<T>): seq<T> {
    match p
    case Top => []
    case InLeft(_, _, _, up) => Before(up)
    case InRight(l, i, _, up) => Before(up) + Inorder(l) + [i]
  }

  function After<T>(p: Path<T>): seq<T> {
    match p
    case Top => []
    case InLeft(i, _, r, up) => [i] + Inorder(r) + After(up)
    case InRight(_, _, _, up) => After(up)
  }

  lemma Regroup<T>(a: seq<T>, b: seq<T>, c: seq<T>, d: seq<T>, e: seq<T>)
    ensures a + (b + c + d) + e == a + b + (c + d + e)
    ensures a + (b + c + d) + e == (a + b + c) + d + e
  {
  }

  lemma SingleTurn<T>(a: seq<T>, b: seq<T>, c: seq<T>, d: seq<T>, e: seq<T>)
    ensures (a + b + c) + d + e == a + b + (c + d + e)
  {
  }

  lemma DoubleTurn<T>(a: seq<T>, b: seq<T>, c: seq<T>, d: seq<T>, e: seq<T>, f: seq<T>, g: seq<T>)
    ensures (a + b + c) + d + (e + f + g) == a + b + ((c + d + e) + f + g)
    ensures (a + b + c) + d + (e + f + g) == (a + b + (c + d + e)) + f + g
  {
  }

  lemma {:induction false} PlugInorder<T>(p: Path<T>, t: Tree<T>)
    ensures Inorder(Plug(p, t)) == Before(p) + Inorder(t) + After(p)
    decreases p
  {
    match p
    case Top =>
    case InLeft(i, c, r, up) =>
      PlugInorder(up, Node(t, i, c, r));
      Regroup(Before(up), Inorder(t), [i], Inorder(r), After(up));
    case InRight(l, i, c, up) =>
      PlugInorder(up, Node(l, i, c, t));
      Regroup(Before(up), Inorder(l), [i], Inorder(t), After(up));
  }

  // ----- The five properties stated at the head of rbtree.c -----

  predicate IsBlack<T>(t: Tree<T>) { t.Leaf? || t.color.Black? }

  function Bit(c: Color): nat { if c.Black? then 1 else 0 }

  /** The number of black nodes on the leftmost way down. */
  function Height<T>(t: Tree<T>): nat {
    if t.Leaf? then 0 else Height(t.left) + Bit(t.color)
  }

  /** Every way down from t passes the same number of black nodes. */
  predicate Even<T>(t: Tree<T>) {
    t.Node? ==> Even(t.left) && Even(t.right) && Height(t.left) == Height(t.right)
  }

  /** Both children of every red node are black. */
  predicate NoRedRed<T>(t: Tree<T>) {
    t.Node? ==>
      && NoRedRed(t.left) && NoRedRed(t.right)
      && (t.color.Red? ==> IsBlack(t.left) && IsBlack(t.right))
  }

  predicate Ok<T>(t: Tree<T>) { Even(t) && NoRedRed(t) }

  predicate Valid<T>(t: Tree<T>) { IsBlack(t) && Ok(t) }

  function Depth<T>(t: Tree<T>): nat {
    if t.Leaf? then 0 else 1 + if Depth(t.left) > Depth(t.right) then Depth(t.left) else Depth(t.right)
  }

  /** The two counts behind the guarantee at the head of rbtree.c. */
  lemma {:induction false} HeightBounds<T>(t: Tree<T>)
    requires Ok(t)
    ensures Depth(t) <= 2 * Height(t) + if IsBlack(t) then 0 else 1
    ensures Pow(Height(t)) <= |Inorder(t)| + 1
  {
    if t.Node? {
      HeightBounds(t.left);
      HeightBounds(t.right);
    }
  }

  lemma {:induction false} PowMono(i: nat, j: nat)
    requires i <= j
    ensures Pow(i) <= Pow(j)
  {
    if i < j { PowMono(i, j - 1); }
  }

  /** A valid tree is no deeper than twice the binary logarithm of its size plus one. */
  lemma {:induction false} LogarithmicDepth<T>(t: Tree<T>, k: nat)
    requires Valid(t) && |Inorder(t)| + 1 < Pow(k + 1)
    ensures Depth(t) <= 2 * k
  {
    HeightBounds(t);
    if Height(t) > k { PowMono(k + 1, Height(t)); }
  }

  /** Plugging any black subtree of height h into p yields a valid tree. */
  predicate Fits<T>(p: Path<T>, h: nat)
    decreases p
  {
    match p
    case Top => true
    case InLeft(_, c, s, up) =>
      Ok(s) && Height(s) == h && FrameFits(c, s, up) && Fits(up, h + Bit(c))
    case InRight(s, _, c, up) =>
      Ok(s) && Height(s) == h && FrameFits(c, s, up) && Fits(up, h + Bit(c))
  }

  /** A red ancestor has a black sibling subtree and itself a black parent; the root is black. */
  predicate FrameFits<T>(c: Color, s: Tree<T>, up: Path<T>) {
    c.Red? ==> IsBlack(s) && up != Top && up.color.Black?
  }

  lemma {:induction false} PlugValid<T>(p: Path<T>, t: Tree<T>)
    requires Ok(t) && Fits(p, Height(t))
    requires IsBlack(t) || (p != Top && p.color.Black?)
    ensures Valid(Plug(p, t))
    decreases p
  {
    match p
    case Top =>
    case InLeft(i, c, r, up) => PlugValid(up, Node(t, i, c, r));
    case InRight(l, i, c, up) => PlugValid(up, Node(l, i, c, t));
  }

  /** A valid tree taken apart at any subtree leaves a fitting path and a good subtree. */
  lemma {:induction false} UnplugValid<T>(p: Path<T>, t: Tree<T>)
    requires Valid(Plug(p, t))
    ensures Ok(t) && Fits(p, Height(t))
    ensures t.Node? && t.color.Red? ==> p != Top && p.color.Black?
    decreases p
  {
    match p
    case Top =>
    case InLeft(i, c, r, up) => UnplugValid(up, Node(t, i, c, r));
    case InRight(l, i, c, up) => UnplugValid(up, Node(l, i, c, t));
  }

  // ----- Insertion -----

  /** The subtree rooted at the nearest ancestor of p's hole, recoloured c. */
  function Under<T>(p: Path<T>, t: Tree<T>, c: Color): Tree<T>
    requires p != Top
  {
    if p.InLeft? then Node(t, p.item, c, p.right) else Node(p.left, p.item, c, t)
  }

  /** The subtree beside p's hole. */
  function Sibling<T>(p: Path<T>): Tree<T>
    requires p != Top
  {
    if p.InLeft? then p.right else p.left
  }

  function WithSibling<T>(p: Path<T>, s: Tree<T>): Path<T>
    requires p != Top
  {
    if p.InLeft? then p.(right := s) else p.(left := s)
  }

  /** Cases 2 and 3 of the insertion: the subtree that takes the grandparent's place. */
  function Turned<T>(p: Path<T>, t: Tree<T>): Tree<T>
    requires t.Node? && p != Top && p.up != Top
  {
    if p.up.InLeft? then
      if p.InRight? then
        Node(Node(p.left, p.item, Red, t.left), t.item, p.up.color, Node(t.right, p.up.item, Red, p.up.right))
      else
        Node(t, p.item, p.up.color, Node(p.right, p.up.item, Red, p.up.right))
    else
      if p.InLeft? then
        Node(Node(p.up.left, p.up.item, Red, t.left), t.item, p.up.color, Node(t.right, p.item, Red, p.right))
      else
        Node(Node(p.up.left, p.up.item, Red, p.left), p.item, p.up.color, t)
  }

  /** Case 1 of the insertion: parent and uncle turn black, the grandparent red. */
  function Flipped<T>(p: Path<T>, t: Tree<T>): Tree<T>
    requires p != Top && p.up != Top && Sibling(p.up).Node?
  {
    Under(WithSibling(p.up, Sibling(p.up).(color := Black)), Under(p, t, Black), Red)
  }

  /** The rebalancing of __rb_fixup_violation, for a red node t sitting below the path p. */
  function Fixup<T>(p: Path<T>, t: Tree<T>): Tree<T>
    requires t.Node?
    decreases p
  {
    if p.Top? then t.(color := Black)
    else if p.color.Black? || p.up.Top? then Plug(p, t)
    else if IsBlack(Sibling(p.up)) then Plug(p.up.up, Turned(p, t))
    else Fixup(p.up.up, Flipped(p, t))
  }

  lemma {:induction false} TurnedInorder<T>(p: Path<T>, t: Tree<T>)
    requires t.Node? && p != Top && p.up != Top
    ensures Inorder(Turned(p, t)) == Inorder(Under(p.up, Under(p, t, p.color), p.up.color))
  {
    var a, x, b := Inorder(t.left), [t.item], Inorder(t.right);
    var s, q := Inorder(Sibling(p)), [p.item];
    var u, g := Inorder(Sibling(p.up)), [p.up.item];
    assert Inorder(Under(p, t, p.color)) == if p.InLeft? then (a + x + b) + q + s else s + q + (a + x + b);
    if p.up.InLeft? {
      if p.InRight? {
        DoubleTurn(s, q, a, x, b, g, u);
      } else {
        SingleTurn(a + x + b, q, s, g, u);
      }
    } else {
      if p.InLeft? {
        DoubleTurn(u, g, a, x, b, q, s);
      } else {
        SingleTurn(u, g, s, q, a + x + b);
      }
    }
  }

  lemma {:induction false} FixupInorder<T>(p: Path<T>, t: Tree<T>)
    requires t.Node?
    ensures Inorder(Fixup(p, t)) == Inorder(Plug(p, t))
    decreases p
  {
    if p.Top? || p.color.Black? || p.up.Top? {
    } else {
      var whole := Under(p.up, Under(p, t, p.color), p.up.color);
      PlugInorder(p.up.up, whole);
      if IsBlack(Sibling(p.up)) {
        TurnedInorder(p, t);
        PlugInorder(p.up.up, Turned(p, t));
      } else {
        FixupInorder(p.up.up, Flipped(p, t));
        PlugInorder(p.up.up, Flipped(p, t));
      }
    }
  }

  /**
   Linking a red node below a fitting path and running the fixup restores all five tree
   properties.
   */
  lemma {:induction false} FixupValid<T>(p: Path<T>, t: Tree<T>)
    requires t.Node? && t.color.Red? && Ok(t) && Fits(p, Height(t))
    ensures Valid(Fixup(p, t))
    decreases p
  {
    if p.Top? {
    } else if p.color.Black? || p.up.Top? {
      PlugValid(p, t);
    } else if IsBlack(Sibling(p.up)) {
      PlugValid(p.up.up, Turned(p, t));
    } else {
      FixupValid(p.up.up, Flipped(p, t));
    }
  }

  /** One round of the insertion: where it stops, where it climbs, and what it then goes on with. */
  lemma {:induction false} FixupStep<T>(p: Path<T>, t: Tree<T>)
    requires t.Node? && t.color.Red? && Ok(t) && Fits(p, Height(t)) && p != Top
    ensures IsBlack(t.left) && IsBlack(t.right)
    ensures p.color.Black? ==> Fixup(p, t) == Plug(p, t)
    ensures p.color.Red? ==> p.up != Top && IsBlack(Sibling(p))
    ensures p.color.Red? && IsBlack(Sibling(p.up)) ==> Fixup(p, t) == Plug(p.up.up, Turned(p, t))
    ensures p.color.Red? && !IsBlack(Sibling(p.up)) ==>
      var u := Flipped(p, t);
      u.Node? && u.color.Red? && Ok(u) && Fits(p.up.up, Height(u)) && Fixup(p, t) == Fixup(p.up.up, u)
  {
  }

  // ----- Removal -----

  /** Case 1 of rb_erase_color: rotate a red sibling above the parent, which turns red. */
  function Lowered<T>(p: Path<T>): Path<T>
    requires p != Top && Sibling(p).Node?
  {
    var s := Sibling(p);
    if p.InLeft? then InLeft(p.item, Red, s.left, InLeft(s.item, p.color, s.right, p.up))
    else InRight(s.right, p.item, Red, InRight(s.left, s.item, p.color, p.up))
  }

  function Near<T>(p: Path<T>): Tree<T>
    requires p != Top && Sibling(p).Node?
  {
    if p.InLeft? then p.right.left else p.left.right
  }

  function Far<T>(p: Path<T>): Tree<T>
    requires p != Top && Sibling(p).Node?
  {
    if p.InLeft? then p.right.right else p.left.left
  }

  /** Case 2: the sibling turns red and the parent black. */
  function Drained<T>(p: Path<T>, t: Tree<T>): Tree<T>
    requires p != Top && Sibling(p).Node?
  {
    Under(WithSibling(p, Sibling(p).(color := Red)), t, Black)
  }

  /** Cases 3 and 4: one or two rotations at the sibling and the parent. */
  function Lifted<T>(p: Path<T>, t: Tree<T>): Tree<T>
    requires p != Top && Sibling(p).Node?
    requires IsBlack(Far(p)) ==> Near(p).Node?
  {
    var s := Sibling(p);
    if p.InLeft? then
      if IsBlack(s.right) then
        Node(Node(t, p.item, Black, s.left.left), s.left.item, p.color,
             Node(s.left.right, s.item, Black, s.right))
      else
        Node(Node(t, p.item, Black, s.left), s.item, p.color, s.right.(color := Black))
    else
      if IsBlack(s.left) then
        Node(Node(s.left, s.item, Black, s.right.left), s.right.item, p.color,
             Node(s.right.right, p.item, Black, t))
      else
        Node(s.left.(color := Black), s.item, p.color, Node(s.right, p.item, Black, t))
  }

  predicate BlackNephews<T>(p: Path<T>)
    requires p != Top && Sibling(p).Node?
  {
    IsBlack(Near(p)) && IsBlack(Far(p))
  }

  /** What one round does below a black sibling when it does not climb. */
  function Settled<T>(p: Path<T>, t: Tree<T>): Tree<T>
    requires p != Top && Sibling(p).Node?
  {
    if BlackNephews(p) then Drained(p, t) else Lifted(p, t)
  }

  /**
   The rebalancing of rb_erase_color: t has one black node too few for the path p. A round
   either settles the matter or, with everything black, climbs to the parent.
   */
  function EraseColor<T>(p: Path<T>, t: Tree<T>): Tree<T>
    decreases p
  {
    if p.Top? || Sibling(p).Leaf? then Plug(p, t)
    else if Sibling(p).color.Red? then
      var q := Lowered(p);
      if Sibling(q).Leaf? then Plug(q, t) else Plug(q.up, Settled(q, t))
    else if BlackNephews(p) && p.color.Black? then EraseColor(p.up, Drained(p, t))
    else Plug(p.up, Settled(p, t))
  }

  lemma {:induction false} LoweredInorder<T>(p: Path<T>, t: Tree<T>)
    requires p != Top && Sibling(p).Node?
    ensures Inorder(Plug(Lowered(p), t)) == Inorder(Plug(p, t))
  {
    var s, q := Sibling(p), Lowered(p);
    PlugInorder(p.up, Under(p, t, p.color));
    PlugInorder(p.up, Under(q.up, Under(q, t, Red), p.color));
    var a, x, b, i, h := Inorder(s.left), [s.item], Inorder(s.right), [p.item], Inorder(t);
    if p.InLeft? {
      SingleTurn(h, i, a, x, b);
    } else {
      SingleTurn(a, x, b, i, h);
    }
  }

  lemma {:induction false} LiftedInorder<T>(p: Path<T>, t: Tree<T>)
    requires p != Top && Sibling(p).Node?
    requires IsBlack(Far(p)) ==> Near(p).Node?
    ensures Inorder(Lifted(p, t)) == Inorder(Under(p, t, p.color))
  {
    var s := Sibling(p);
    var x, i, h, n, f := [s.item], [p.item], Inorder(t), Inorder(Near(p)), Inorder(Far(p));
    if IsBlack(Far(p)) {
      var a, y, b := Inorder(Near(p).left), [Near(p).item], Inorder(Near(p).right);
      if p.InLeft? {
        DoubleTurn(h, i, a, y, b, x, f);
      } else {
        DoubleTurn(f, x, a, y, b, i, h);
      }
    } else if p.InLeft? {
      SingleTurn(h, i, n, x, f);
    } else {
      SingleTurn(f, x, n, i, h);
    }
  }

  lemma {:induction false} SettledInorder<T>(p: Path<T>, t: Tree<T>)
    requires p != Top && Sibling(p).Node?
    ensures Inorder(Plug(p.up, Settled(p, t))) == Inorder(Plug(p, t))
  {
    PlugInorder(p.up, Under(p, t, p.color));
    PlugInorder(p.up, Settled(p, t));
    if !BlackNephews(p) {
      LiftedInorder(p, t);
    }
  }

  lemma {:induction false} EraseColorInorder<T>(p: Path<T>, t: Tree<T>)
    ensures Inorder(EraseColor(p, t)) == Inorder(Plug(p, t))
    decreases p
  {
    if p.Top? || Sibling(p).Leaf? {
    } else if Sibling(p).color.Red? {
      LoweredInorder(p, t);
      if Sibling(Lowered(p)).Node? {
        SettledInorder(Lowered(p), t);
      }
    } else if BlackNephews(p) && p.color.Black? {
      SettledInorder(p, t);
      EraseColorInorder(p.up, Drained(p, t));
    } else {
      SettledInorder(p, t);
    }
  }

  lemma {:induction false} LiftedOk<T>(p: Path<T>, t: Tree<T>)
    requires p != Top && Sibling(p).Node? && Sibling(p).color.Black?
    requires Ok(t) && Ok(Sibling(p)) && Height(Sibling(p)) == Height(t) + 1
    requires p.color.Red? ==> IsBlack(Sibling(p))
    requires !BlackNephews(p)
    ensures Ok(Lifted(p, t)) && Height(Lifted(p, t)) == Height(t) + 1 + Bit(p.color)
  {
    var r := Lifted(p, t);
    assert Ok(Near(p)) && Ok(Far(p)) && Height(Near(p)) == Height(Far(p)) == Height(t);
    if IsBlack(Far(p)) {
      assert Ok(Near(p).left) && Ok(Near(p).right);
      assert Height(Near(p).left) == Height(Near(p).right) == Height(t);
    } else {
      assert Ok(Far(p).left) && Ok(Far(p).right);
    }
    assert Ok(r.left) && Ok(r.right) && Height(r.left) == Height(r.right) == Height(t) + 1;
  }

  /** A round that does not climb makes the tree valid again. */
  lemma {:induction false} SettledValid<T>(p: Path<T>, t: Tree<T>)
    requires p != Top && Sibling(p).Node? && Sibling(p).color.Black?
    requires Ok(t) && IsBlack(t) && Fits(p, Height(t) + 1)
    requires p.color.Red? || !BlackNephews(p)
    ensures Valid(Plug(p.up, Settled(p, t)))
  {
    if !BlackNephews(p) {
      LiftedOk(p, t);
    }
    PlugValid(p.up, Settled(p, t));
  }

  /** Rebalancing repairs a black deficit of one, at any depth, for any surrounding tree. */
  lemma {:induction false} EraseColorValid<T>(p: Path<T>, t: Tree<T>)
    requires Ok(t) && IsBlack(t) && Fits(p, Height(t) + 1)
    ensures Valid(EraseColor(p, t))
    decreases p
  {
    if p.Top? {
    } else {
      if Sibling(p).color.Red? {
        SettledValid(Lowered(p), t);
      } else if BlackNephews(p) && p.color.Black? {
        EraseColorValid(p.up, Drained(p, t));
      } else {
        SettledValid(p, t);
      }
    }
  }

  /** One round of the removal: where it settles, where it climbs, and what it then goes on with. */
  lemma {:induction false} EraseStep<T>(p: Path<T>, t: Tree<T>)
    requires Ok(t) && IsBlack(t) && Fits(p, Height(t) + 1) && p != Top
    ensures Sibling(p).Node?
    ensures Sibling(p).color.Red? ==>
      var q := Lowered(p);
      && Sibling(q).Node? && Sibling(q).color.Black? && GoodNephews(q)
      && EraseColor(p, t) == Plug(q.up, Settled(q, t))
    ensures Sibling(p).color.Black? ==> GoodNephews(p)
    ensures Sibling(p).color.Black? && !(BlackNephews(p) && p.color.Black?) ==>
      EraseColor(p, t) == Plug(p.up, Settled(p, t))
    ensures Sibling(p).color.Black? && BlackNephews(p) && p.color.Black? ==>
      var u := Drained(p, t);
      u == Settled(p, t) && Ok(u) && IsBlack(u) && Fits(p.up, Height(u) + 1) && EraseColor(p, t) == EraseColor(p.up, u)
  {
    var s := Sibling(p);
    assert Ok(s.left) && Ok(s.right);
    assert s.color.Red? ==> Ok(Sibling(Lowered(p)).left) && Ok(Sibling(Lowered(p)).right);
  }

  /** The children of a red nephew are black. */
  predicate GoodNephews<T>(p: Path<T>)
    requires p != Top && Sibling(p).Node?
  {
    !IsBlack(Near(p)) ==> IsBlack(Near(p).left) && IsBlack(Near(p).right)
  }

  function Leftmost<T>(t: Tree<T>): Tree<T>
    requires t.Node?
    ensures Leftmost(t).Node? && Leftmost(t).left.Leaf?
  {
    if t.left.Leaf? then t else Leftmost(t.left)
  }

  /** The path from the leftmost node of t to the root, when t hangs below up. */
  function LeftSpine<T>(t: Tree<T>, up: Path<T>): Path<T>
    requires t.Node?
    decreases t
  {
    if t.left.Leaf? then up else LeftSpine(t.left, InLeft(t.item, t.color, t.right, up))
  }

  lemma {:induction false} LeftSpinePlug<T>(t: Tree<T>, up: Path<T>)
    requires t.Node?
    ensures Plug(LeftSpine(t, up), Leftmost(t)) == Plug(up, t)
    decreases t
  {
    if t.left.Node? {
      LeftSpinePlug(t.left, InLeft(t.item, t.color, t.right, up));
    }
  }

  /** The path reaching the place of n's successor once that successor has taken n's place. */
  function SuccessorPath<T>(p: Path<T>, t: Tree<T>): Path<T>
    requires t.Node? && t.right.Node?
  {
    LeftSpine(t.right, InRight(t.left, Leftmost(t.right).item, t.color, p))
  }

  /** rb_remove: unlink the root of t, which hangs below p, and rebalance. */
  function Remove<T>(p: Path<T>, t: Tree<T>): Tree<T>
    requires t.Node?
  {
    if t.left.Leaf? then Replace(p, t.right, t.color, t.color)
    else if t.right.Leaf? then Plug(p, t.left.(color := t.color))
    else
      var s := Leftmost(t.right);
      Replace(SuccessorPath(p, t), s.right, Black, s.color)
  }

  /** Put the only child c of an unlinked node in its place; a missing black is made up for. */
  function Replace<T>(p: Path<T>, c: Tree<T>, color: Color, lost: Color): Tree<T> {
    if c.Node? then Plug(p, c.(color := color))
    else if lost.Black? then EraseColor(p, Leaf)
    else Plug(p, Leaf)
  }

  lemma {:induction false} SpineFits<T>(t: Tree<T>, up: Path<T>)
    requires t.Node? && Ok(t) && Fits(up, Height(t))
    requires t.color.Red? ==> up != Top && up.color.Black?
    ensures Fits(LeftSpine(t, up), Height(Leftmost(t))) && Ok(Leftmost(t))
    ensures Leftmost(t).color.Red? ==> LeftSpine(t, up) != Top && LeftSpine(t, up).color.Black?
    decreases t
  {
    if t.left.Node? {
      SpineFits(t.left, InLeft(t.item, t.color, t.right, up));
    }
  }

  lemma {:induction false} ReplaceValid<T>(p: Path<T>, c: Tree<T>, color: Color, lost: Color)
    requires Ok(c) && Fits(p, Height(c) + Bit(lost))
    requires c.Node? ==> c.color.Red? && lost.Black? && color.Black?
    ensures Valid(Replace(p, c, color, lost))
  {
    if c.Node? {
      PlugValid(p, c.(color := color));
    } else if lost.Black? {
      EraseColorValid(p, Leaf);
    } else {
      PlugValid(p, c);
    }
  }

  /** Every removal from a valid tree leaves a valid tree. */
  lemma {:induction false} RemoveValid<T>(p: Path<T>, t: Tree<T>)
    requires t.Node? && Valid(Plug(p, t))
    ensures Valid(Remove(p, t))
  {
    UnplugValid(p, t);
    if t.left.Leaf? {
      OnlyChild(t.right);
      ReplaceValid(p, t.right, t.color, t.color);
    } else if t.right.Leaf? {
      OnlyChild(t.left);
      PlugValid(p, t.left.(color := t.color));
    } else {
      var s := Leftmost(t.right);
      SpineFits(t.right, InRight(t.left, s.item, t.color, p));
      OnlyChild(s.right);
      ReplaceValid(SuccessorPath(p, t), s.right, Black, s.color);
    }
  }

  /** A subtree without black nodes is empty or a single red node. */
  lemma {:induction false} OnlyChild<T>(t: Tree<T>)
    requires Ok(t) && Height(t) == 0
    ensures t.Node? ==> t.color.Red? && t.left.Leaf? && t.right.Leaf?
  {
  }

  /** The removal takes exactly the one item out of the tree order. */
  lemma {:induction false} RemoveInorder<T>(p: Path<T>, t: Tree<T>)
    requires t.Node?
    ensures Inorder(Remove(p, t)) == Before(p) + Inorder(t.left) + Inorder(t.right) + After(p)
  {
    if t.left.Leaf? {
      ReplaceInorder(p, t.right, t.color, t.color);
    } else if t.right.Leaf? {
      PlugInorder(p, t.left.(color := t.color));
    } else {
      var s := Leftmost(t.right);
      var up := InRight(t.left, s.item, t.color, p);
      ReplaceInorder(LeftSpine(t.right, up), s.right, Black, s.color);
      LeftSpineOrder(t.right, up);
      Flatten(Before(p), Inorder(t.left), [s.item], Inorder(s.right), After(LeftSpine(t.right, up)),
              Inorder(t.right), After(p));
    }
  }

  lemma Flatten<T>(a: seq<T>, b: seq<T>, c: seq<T>, d: seq<T>, e: seq<T>, f: seq<T>, g: seq<T>)
    requires c + d + e == f + g
    ensures a + b + c + d + e == a + b + f + g
  {
    assert a + b + c + d + e == (a + b) + (c + d + e);
    assert (a + b) + (f + g) == a + b + f + g;
  }

  lemma {:induction false} ReplaceInorder<T>(p: Path<T>, c: Tree<T>, color: Color, lost: Color)
    ensures Inorder(Replace(p, c, color, lost)) == Before(p) + Inorder(c) + After(p)
  {
    PlugInorder(p, c);
    if c.Node? {
      PlugInorder(p, c.(color := color));
    } else if lost.Black? {
      EraseColorInorder(p, Leaf);
    }
  }

  lemma {:induction false} LeftSpineOrder<T>(t: Tree<T>, up: Path<T>)
    requires t.Node?
    ensures Before(LeftSpine(t, up)) == Before(up)
    ensures [Leftmost(t).item] + Inorder(Leftmost(t).right) + After(LeftSpine(t, up)) == Inorder(t) + After(up)
    decreases t
  {
    if t.left.Node? {
      LeftSpineOrder(t.left, InLeft(t.item, t.color, t.right, up));
      assert Inorder(t.left) + ([t.item] + Inorder(t.right) + After(up)) == Inorder(t) + After(up);
    }
  }
}
