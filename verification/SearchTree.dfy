/** Search trees given by their in-order sequences: what every search relies on, whatever the tree's shape. */
module SearchTree {
  import opened Lists

  type Id = nat

  datatype Tree = Leaf | Bin(left: Tree, id: Id, right: Tree)

  function Inorder(t: Tree): seq<Id> { if t.Leaf? then [] else Inorder(t.left) + [t.id] + Inorder(t.right) }

  /** The simplest tree with the sequence. */
  function Spine(order: seq<Id>): (t: Tree)
    ensures Inorder(t) == order
  {
    if order == [] then Leaf else Bin(Leaf, order[0], Spine(order[1..]))
  }

  /** A subtree holds a stretch of the sequence. */
  ghost predicate Stretch(t: Tree, order: seq<Id>, lo: nat, hi: nat) {
    lo <= hi <= |order| && Inorder(t) == order[lo..hi]
  }

  /** Its root splits the stretch. */
  lemma {:induction false} Descend(t: Tree, order: seq<Id>, lo: nat, hi: nat) returns (mid: nat)
    requires Stretch(t, order, lo, hi) && t.Bin?
    ensures lo <= mid < hi && order[mid] == t.id && Stretch(t.left, order, lo, mid)
      && Stretch(t.right, order, mid + 1, hi)
  {
    mid := lo + |Inorder(t.left)|;
    var s := order[lo..hi];
    assert s[|Inorder(t.left)|] == t.id;
    assert order[lo..mid] == s[..|Inorder(t.left)|];
    assert order[mid + 1..hi] == s[|Inorder(t.left)| + 1..];
  }

  function Position(order: seq<Id>, x: Id): (i: nat)
    requires x in order
    ensures i < |order| && order[i] == x
  {
    if order[0] == x then 0 else 1 + Position(order[1..], x)
  }

  lemma {:induction false} InsertElems(order: seq<Id>, i: nat, id: Id)
    requires NoDup(order) && i <= |order| && id !in order
    ensures NoDup(order[..i] + [id] + order[i..])
    ensures forall x :: x in order[..i] + [id] + order[i..] <==> x in order || x == id
  {
    assert order == order[..i] + order[i..];
  }

  lemma {:induction false} RemoveElems(order: seq<Id>, i: nat)
    requires NoDup(order) && i < |order|
    ensures NoDup(order[..i] + order[i + 1..])
    ensures forall x :: x in order[..i] + order[i + 1..] <==> x in order && x != order[i]
  {
    assert order == order[..i] + [order[i]] + order[i + 1..];
  }
}
