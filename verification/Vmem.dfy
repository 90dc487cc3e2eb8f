/** The kernel address allocator as it runs. */
module Vmem {
  import opened Lists
  import opened SearchTree
  import opened VmemModel

  predicate InSpan(first: nat, n: nat, p: nat) { first <= p < first + n }

  /** The pages free in `more` are those free in `less` and the span, which share none. */
  ghost predicate Gains(less: Regions, more: Regions, first: nat, n: nat) {
    forall p: nat {:trigger IsFree(more, p)} {:trigger IsFree(less, p)} ::
      (IsFree(more, p) <==> IsFree(less, p) || InSpan(first, n, p)) && !(IsFree(less, p) && InSpan(first, n, p))
  }

  // ----- Taking pages from the back of a region -----

  lemma {:induction false} ShrinkSpaced(regions: Regions, order: seq<Id>, x: Id, k: nat)
    requires Spaced(regions, order, 1) && x in regions && 0 < k < regions[x].n
    ensures
      var r := Region(regions[x].first, regions[x].n - k);
      Spaced(regions[x := r], order, 1) && Sum(regions[x := r], order) + k == Sum(regions, order)
  {
    var r := Region(regions[x].first, regions[x].n - k);
    var regions' := regions[x := r];
    SumResize(regions, order, x, r);
    forall i, j | 0 <= i < j < |order|
      ensures Before(regions', order, i, j, 1)
    {
      assert Before(regions, order, i, j, 1);
    }
  }

  lemma {:induction false} ShrinkGains(regions: Regions, order: seq<Id>, x: Id, k: nat)
    requires Spaced(regions, order, 1) && x in regions && 0 < k < regions[x].n
    ensures
      var first := regions[x].first + regions[x].n - k;
      Gains(regions[x := Region(regions[x].first, regions[x].n - k)], regions, first, k)
  {
    var regions' := regions[x := Region(regions[x].first, regions[x].n - k)];
    var first := regions[x].first + regions[x].n - k;
    forall p: nat ensures (IsFree(regions, p) <==> IsFree(regions', p) || InSpan(first, k, p))
      && !(IsFree(regions', p) && InSpan(first, k, p)) {
      if IsFree(regions, p) {
        var y :| y in regions && In(regions[y], p);
        assert y in regions' && (In(regions'[y], p) || InSpan(first, k, p));
      }
      if IsFree(regions', p) {
        var y :| y in regions' && In(regions'[y], p);
        assert In(regions[y], p);
        if y != x { RegionsApart(regions, order, x, y); }
      }
      if InSpan(first, k, p) { assert In(regions[x], p); }
    }
  }

  lemma {:induction false} RemoveBefore(regions: Regions, order: seq<Id>, i: nat, a: nat, b: nat)
    requires Sparse(regions, order, 1) && NoDup(order) && i < |order| && a < b < |order| - 1
    ensures Before(regions - {order[i]}, order[..i] + order[i + 1..], a, b, 1)
  {
    var order' := order[..i] + order[i + 1..];
    var c, d := if a < i then a else a + 1, if b < i then b else b + 1;
    assert order'[a] == order[c] && order'[b] == order[d] && order[c] != order[i] && order[d] != order[i];
    assert Before(regions, order, c, d, 1);
  }

  lemma {:induction false} RemoveSpaced(regions: Regions, order: seq<Id>, i: nat)
    requires Spaced(regions, order, 1) && i < |order|
    ensures Spaced(regions - {order[i]}, order[..i] + order[i + 1..], 1)
  {
    RemoveElems(order, i);
    RemoveSparse(regions, order, i);
  }

  lemma {:induction false} RemoveSparse(regions: Regions, order: seq<Id>, i: nat)
    requires Sparse(regions, order, 1) && NoDup(order) && i < |order|
    ensures Sparse(regions - {order[i]}, order[..i] + order[i + 1..], 1)
  {
    var regions', order' := regions - {order[i]}, order[..i] + order[i + 1..];
    forall a, b | 0 <= a < b < |order'|
      ensures Before(regions', order', a, b, 1)
    {
      RemoveBefore(regions, order, i, a, b);
    }
  }

  lemma {:induction false} RemoveGains(regions: Regions, order: seq<Id>, x: Id)
    requires Spaced(regions, order, 1) && x in regions
    ensures Gains(regions - {x}, regions, regions[x].first, regions[x].n)
  {
    var regions' := regions - {x};
    forall p: nat
      ensures (IsFree(regions, p) <==> IsFree(regions', p) || InSpan(regions[x].first, regions[x].n, p))
      ensures !(IsFree(regions', p) && InSpan(regions[x].first, regions[x].n, p))
    {
      if IsFree(regions, p) {
        var y :| y in regions && In(regions[y], p);
        assert y == x || (y in regions' && In(regions'[y], p));
      }
      if IsFree(regions', p) {
        var y :| y in regions' && In(regions'[y], p);
        assert In(regions[y], p);
        RegionsApart(regions, order, x, y);
      }
      if InSpan(regions[x].first, regions[x].n, p) { assert In(regions[x], p); }
    }
  }

  // ----- Giving pages back -----

  /** All gaps are proper but perhaps the one behind x. */
  ghost predicate SpacedBut(regions: Regions, order: seq<Id>, x: Id) {
    && Spaced(regions, order, 0)
    && forall i, j {:trigger Before(regions, order, i, j, 1)} | 0 <= i < j < |order| && order[i] != x ::
      Before(regions, order, i, j, 1)
  }

  ghost predicate Taken(regions: Regions, p: nat, n: nat) { forall q: nat | p <= q < p + n :: !IsFree(regions, q) }

  lemma {:induction false} NotInside(regions: Regions, order: seq<Id>, p: nat, n: nat, x: Id)
    requires Spaced(regions, order, 1) && Taken(regions, p, n) && n > 0 && x in regions
    ensures regions[x].first + regions[x].n <= p || p + n <= regions[x].first
  {
    var r := regions[x];
    if !(r.first + r.n <= p || p + n <= r.first) {
      var q := if r.first < p then p else r.first;
      assert In(r, q) && IsFree(regions, q);
      assert false;
    }
  }

  lemma {:induction false} GrowSpaced(regions: Regions, order: seq<Id>, x: Id, p: nat, n: nat)
    requires Spaced(regions, order, 1) && x in regions && regions[x].first + regions[x].n == p && Taken(regions, p, n)
      && n > 0
    ensures
      var regions' := regions[x := Region(regions[x].first, regions[x].n + n)];
      SpacedBut(regions', order, x) && Sum(regions', order) == Sum(regions, order) + n
  {
    var r := Region(regions[x].first, regions[x].n + n);
    var regions' := regions[x := r];
    SumResize(regions, order, x, r);
    forall i, j | 0 <= i < j < |order| ensures Before(regions', order, i, j, 0)
      && (order[i] != x ==> Before(regions', order, i, j, 1)) {
      assert Before(regions, order, i, j, 1);
      if order[i] == x { NotInside(regions, order, p, n, order[j]); }
    }
  }

  /** Where rb_insert puts a region: after all that start before it. */
  method Place(regions: Regions, order: seq<Id>, p: nat) returns (i: nat)
    requires forall k | 0 <= k < |order| :: order[k] in regions
    ensures IsPlace(regions, order, p, i)
  {
    i := 0;
    while i < |order| && regions[order[i]].first < p
      invariant i <= |order| && forall k | 0 <= k < i :: regions[order[k]].first < p
    {
      i := i + 1;
    }
  }

  ghost predicate IsPlace(regions: Regions, order: seq<Id>, p: nat, i: nat)
    requires forall k | 0 <= k < |order| :: order[k] in regions
  {
    i <= |order| && (i < |order| ==> regions[order[i]].first >= p) && forall k | 0 <= k < i ::
      regions[order[k]].first < p
  }

  /** Pages that are allocated, with an allocated page before them. */
  ghost predicate Loose(regions: Regions, order: seq<Id>, p: nat, n: nat) {
    Spaced(regions, order, 1) && Taken(regions, p, n) && n > 0 && p > 0 && !IsFree(regions, p - 1)
  }

  lemma {:induction false} InsertSpaced(regions: Regions, order: seq<Id>, x: Id, p: nat, n: nat, i: nat)
    requires Loose(regions, order, p, n) && x !in regions && IsPlace(regions, order, p, i)
    ensures SpacedBut(regions[x := Region(p, n)], order[..i] + [x] + order[i..], x)
  {
    var regions', order' := regions[x := Region(p, n)], order[..i] + [x] + order[i..];
    InsertElems(order, i, x);
    forall a, b | 0 <= a < b < |order'| ensures Before(regions', order', a, b, 0)
      && (order'[a] != x ==> Before(regions', order', a, b, 1)) {
      InsertBefore(regions, order, x, p, n, i, a, b);
    }
  }

  lemma {:induction false} InsertBefore(regions: Regions, order: seq<Id>, x: Id, p: nat, n: nat, i: nat, a: nat, b: nat)
    requires Loose(regions, order, p, n) && x !in regions && IsPlace(regions, order, p, i) && a < b < |order| + 1
    ensures Before(regions[x := Region(p, n)], order[..i] + [x] + order[i..], a, b, if a == i then 0 else 1)
  {
    var order' := order[..i] + [x] + order[i..];
    if a == i {
      assert order'[a] == x && order'[b] == order[b - 1];
      Beside(regions, order, p, n, i, b - 1);
    } else if b == i {
      assert order'[a] == order[a] && order'[b] == x;
      Beside(regions, order, p, n, i, a);
    } else {
      var c, d := if a < i then a else a - 1, if b < i then b else b - 1;
      assert order'[a] == order[c] && order'[b] == order[d];
      assert Before(regions, order, c, d, 1);
    }
  }

  /** A region beside the place of a new one. */
  lemma {:induction false} Beside(regions: Regions, order: seq<Id>, p: nat, n: nat, i: nat, j: nat)
    requires Loose(regions, order, p, n) && IsPlace(regions, order, p, i) && j < |order|
    ensures if j < i then regions[order[j]].first + regions[order[j]].n < p else p + n <= regions[order[j]].first
  {
    NotInside(regions, order, p, n, order[j]);
    assert !In(regions[order[j]], p - 1);
    if i < j { assert Before(regions, order, i, j, 1); }
  }

  lemma {:induction false} CloseSpaced(regions: Regions, order: seq<Id>, x: Id)
    requires SpacedBut(regions, order, x) && x in regions && !IsFree(regions, regions[x].first + regions[x].n)
    ensures Spaced(regions, order, 1)
  {
    forall i, j | 0 <= i < j < |order| ensures Before(regions, order, i, j, 1) {
      assert Before(regions, order, i, j, 0);
      assert In(regions[order[j]], regions[order[j]].first);
    }
  }

  ghost predicate Touching(regions: Regions, order: seq<Id>, x: Id, y: Id) {
    SpacedBut(regions, order, x) && x in regions && y in regions && x != y
      && regions[y].first == regions[x].first + regions[x].n
  }

  function Fused(regions: Regions, x: Id, y: Id): Regions
    requires x in regions && y in regions
  {
    regions[x := Region(regions[x].first, regions[x].n + regions[y].n)] - {y}
  }

  lemma {:induction false} MergeSum(regions: Regions, order: seq<Id>, x: Id, y: Id, i: nat)
    requires Touching(regions, order, x, y) && i < |order| && order[i] == y
    ensures
      var order' := order[..i] + order[i + 1..];
      (forall k | 0 <= k < |order'| :: order'[k] in Fused(regions, x, y))
        && Sum(Fused(regions, x, y), order') == Sum(regions, order)
  {
    var r := Region(regions[x].first, regions[x].n + regions[y].n);
    SumResize(regions, order, x, r);
    SumRemove(regions[x := r], order, i);
  }

  lemma {:induction false} MergeSpaced(regions: Regions, order: seq<Id>, x: Id, y: Id, i: nat)
    requires Touching(regions, order, x, y) && i < |order| && order[i] == y
    ensures Spaced(Fused(regions, x, y), order[..i] + order[i + 1..], 1)
  {
    var fused, order' := Fused(regions, x, y), order[..i] + order[i + 1..];
    RemoveElems(order, i);
    forall a, b | 0 <= a < b < |order'|
      ensures Before(fused, order', a, b, 1)
    {
      MergeBefore(regions, order, x, y, i, a, b);
    }
  }

  lemma {:induction false} MergeBefore(regions: Regions, order: seq<Id>, x: Id, y: Id, i: nat, a: nat, b: nat)
    requires Touching(regions, order, x, y) && i < |order| && order[i] == y && a < b < |order| - 1
    ensures Before(Fused(regions, x, y), order[..i] + order[i + 1..], a, b, 1)
  {
    var order' := order[..i] + order[i + 1..];
    var c, d := if a < i then a else a + 1, if b < i then b else b + 1;
    assert order'[a] == order[c] && order'[b] == order[d] && order[c] != y && order[d] != y;
    if order[c] == x {
      BehindBoth(regions, order, x, y, i, c, d);
    } else {
      assert Before(regions, order, c, d, 1);
    }
    assert order[d] in Fused(regions, x, y) && order[c] in Fused(regions, x, y);
  }

  lemma {:induction false} BehindBoth(regions: Regions, order: seq<Id>, x: Id, y: Id, i: nat, c: nat, d: nat)
    requires Touching(regions, order, x, y) && i < |order| && order[i] == y && c < d < |order| && order[c] == x
      && order[d] != y
    ensures regions[y].first + regions[y].n < regions[order[d]].first
  {
    assert Before(regions, order, c, d, 0);
    assert d < i ==> Before(regions, order, d, i, 1);
    assert Before(regions, order, i, d, 1);
  }

  /** A region x with n pages from p on, and otherwise as before, gains those pages. */
  ghost predicate Widened(regions: Regions, regions': Regions, x: Id, p: nat, n: nat) {
    && regions'.Keys == regions.Keys + {x} && (forall y | y in regions && y != x :: regions'[y] == regions[y])
    && forall q: nat :: In(regions'[x], q) <==> InSpan(p, n, q) || (x in regions && In(regions[x], q))
  }

  lemma {:induction false} WidenGains(regions: Regions, regions': Regions, x: Id, p: nat, n: nat)
    requires Widened(regions, regions', x, p, n) && Taken(regions, p, n)
    ensures Gains(regions, regions', p, n)
  {
    forall q: nat ensures (IsFree(regions', q) <==> IsFree(regions, q) || InSpan(p, n, q))
      && !(IsFree(regions, q) && InSpan(p, n, q)) {
      if IsFree(regions', q) {
        var y :| y in regions' && In(regions'[y], q);
        assert y != x ==> y in regions && In(regions[y], q);
      }
      if IsFree(regions, q) {
        var y :| y in regions && In(regions[y], q);
        assert y in regions' && In(regions'[y], q);
      }
      if InSpan(p, n, q) { assert x in regions' && In(regions'[x], q); }
    }
  }

  lemma {:induction false} FusedSame(regions: Regions, order: seq<Id>, x: Id, y: Id, q: nat)
    requires Touching(regions, order, x, y)
    ensures IsFree(Fused(regions, x, y), q) <==> IsFree(regions, q)
  {
    var fused := Fused(regions, x, y);
    if IsFree(regions, q) {
      var z :| z in regions && In(regions[z], q);
      var w := if z == y then x else z;
      assert w in fused && In(fused[w], q);
    }
    if IsFree(fused, q) {
      var z :| z in fused && In(fused[z], q);
      assert z == x ==> In(regions[x], q) || In(regions[y], q);
      assert z != x ==> In(regions[z], q);
    }
  }

  lemma {:induction false} NextTouches(regions: Regions, order: seq<Id>, x: Id, y: Id)
    requires SpacedBut(regions, order, x) && x in regions && y in regions
      && In(regions[y], regions[x].first + regions[x].n)
    ensures Touching(regions, order, x, y)
  {
    var i, k := Position(order, y), Position(order, x);
    assert x != y;
    assert i < k ==> Before(regions, order, i, k, 0);
    assert k < i ==> Before(regions, order, k, i, 0);
  }

  lemma {:induction false} Looser(regions: Regions, order: seq<Id>)
    requires Spaced(regions, order, 1)
    ensures Spaced(regions, order, 0)
  {
    forall i, j | 0 <= i < j < |order|
      ensures Before(regions, order, i, j, 0)
    {
      assert Before(regions, order, i, j, 1);
    }
  }

  lemma {:induction false} FuseFiled(regions: Regions, lists: seq<seq<Id>>, x: Id, y: Id)
    requires Filed(regions, lists) && x in regions && y in regions && x != y && regions[x].n > 0 && regions[y].n > 0
    ensures Filed(Fused(regions, x, y),
      FileCut(FileMove(lists, x, regions[x].n, regions[x].n + regions[y].n), y, regions[y].n))
  {
    var r := Region(regions[x].first, regions[x].n + regions[y].n);
    MoveFiled(regions, lists, x, r);
    CutFiled(regions[x := r], FileMove(lists, x, regions[x].n, r.n), y);
  }

  class Allocator {
    var regions: Regions
    var order: seq<Id>        // the tree, by address
    var lists: seq<seq<Id>>   // the free lists, by size
    var free: nat             // the free counter, in pages
    const shape: seq<Id> -> Tree

    ghost predicate Valid()
      reads this
    {
      && Spaced(regions, order, 1) && Filed(regions, lists) && free == Sum(regions, order)
      && (forall s: seq<Id> :: Inorder(shape(s)) == s)
    }

    /** vmem_init: the whole area is one free region. */
    constructor (first: nat, n: nat, id: Id)
      requires n > 0
      ensures Valid() && regions == map[id := Region(first, n)] && order == [id] && free == n
      ensures forall p: nat :: IsFree(regions, p) <==> first <= p < first + n
    {
      var empty: seq<seq<Id>> := seq(LISTS, _ => []);
      regions := map[id := Region(first, n)];
      order := [id];
      lists := FilePut(empty, id, n);
      free := n;
      shape := Spine;
      new;
      PutFiled(map[], empty, id, Region(first, n));
      assert map[][id := Region(first, n)] == regions;
      SumAt(regions, order, 0);
      assert In(regions[id], first);
      forall p: nat | first <= p < first + n ensures IsFree(regions, p) { assert In(regions[id], p); }
    }

    /** vmem_alloc without waiting: the last pages of a region that is large enough. */
    method Alloc(n: nat) returns (r: Option<nat>)
      requires Valid() && n > 0
      modifies this
      ensures Valid()
      ensures r.None? <==> forall x | x in old(regions) :: old(regions)[x].n < n
      ensures r.None? ==> regions == old(regions) && order == old(order) && lists == old(lists) && free == old(free)
      ensures r.Some? ==> Gains(regions, old(regions), r.value, n) && free == old(free) - n
    {
      r := None;
      if free < n {
        NoneLargeEnough(regions, order, n);
      } else {
        var x := Find(regions, lists, n);
        if x.Some? {
          var first := Take(x.value, n);
          r := Some(first);
        }
      }
    }

    /** The end of vmem_freelist_alloc, with vmem_free_resize. */
    method Take(x: Id, n: nat) returns (first: nat)
      requires Valid() && x in regions && 0 < n <= regions[x].n
      modifies this
      ensures Valid() && Gains(regions, old(regions), first, n) && free == old(free) - n
    {
      first := regions[x].first + (regions[x].n - n);
      if regions[x].n == n {
        RemoveGains(regions, order, x);
        Remove(x);
      } else {
        ShrinkGains(regions, order, x, n);
        ShrinkSpaced(regions, order, x, n);
        Resize(x, regions[x].n - n);
      }
      free := free - n;
    }

    /** vmem_free, with a region descriptor id at hand. */
    method Free(p: nat, n: nat, id: Id)
      requires Valid() && p > 0 && n > 0 && Taken(regions, p, n) && id !in regions
      modifies this
      ensures Valid() && Gains(old(regions), regions, p, n) && free == old(free) + n
    {
      var x := Widen(p, n, id);
      ghost var widened := regions;
      free := free + n;
      var next := FreeAt(regions, order, shape(order), p + n);
      if next.Some? {
        NextTouches(regions, order, x, next.value);
        forall q: nat ensures IsFree(Fused(widened, x, next.value), q) <==> IsFree(widened, q) {
          FusedSame(regions, order, x, next.value, q);
        }
        Fuse(x, next.value);
      } else {
        CloseSpaced(regions, order, x);
      }
    }

    /** Add the pages to the region before them, or make a region of them. */
    method Widen(p: nat, n: nat, id: Id) returns (x: Id)
      requires Valid() && p > 0 && n > 0 && Taken(regions, p, n) && id !in regions
      modifies this`regions, this`order, this`lists
      ensures Filed(regions, lists) && x in regions && regions[x].first + regions[x].n == p + n
      ensures SpacedBut(regions, order, x) && Sum(regions, order) == old(Sum(regions, order)) + n
      ensures Gains(old(regions), regions, p, n)
    {
      Looser(regions, order);
      var prev := FreeAt(regions, order, shape(order), p - 1);
      if prev.Some? {
        x := prev.value;
        NotInside(regions, order, p, n, x);
        Extend(p, n, x);
      } else {
        x := id;
        Create(p, n, id);
        WidenGains(old(regions), regions, x, p, n);
      }
    }

    /** The collapse with the previous region. */
    method Extend(p: nat, n: nat, x: Id)
      requires Spaced(regions, order, 1) && Filed(regions, lists) && x in regions && n > 0
      requires Taken(regions, p, n) && regions[x].first + regions[x].n == p
      modifies this`regions, this`lists
      ensures Filed(regions, lists)
        && regions == old(regions)[x := Region(old(regions)[x].first, old(regions)[x].n + n)]
      ensures SpacedBut(regions, order, x) && Sum(regions, order) == old(Sum(regions, order)) + n
      ensures Gains(old(regions), regions, p, n)
    {
      GrowSpaced(regions, order, x, p, n);
      Resize(x, regions[x].n + n);
      WidenGains(old(regions), regions, x, p, n);
    }

    /** vmem_free_create */
    method Create(p: nat, n: nat, x: Id)
      requires Spaced(regions, order, 1) && Filed(regions, lists) && x !in regions && p > 0 && n > 0
      requires Taken(regions, p, n) && !IsFree(regions, p - 1)
      modifies this`regions, this`order, this`lists
      ensures Filed(regions, lists) && regions == old(regions)[x := Region(p, n)]
      ensures SpacedBut(regions, order, x) && Sum(regions, order) == old(Sum(regions, order)) + n
    {
      var i := Place(regions, order, p);
      InsertSpaced(regions, order, x, p, n, i);
      SumInsert(regions, order, i, x, Region(p, n));
      FileNew(x, Region(p, n));
      order := order[..i] + [x] + order[i..];
      regions := regions[x := Region(p, n)];
    }

    method FileNew(x: Id, r: Region)
      requires Filed(regions, lists) && x !in regions && r.n > 0
      modifies this`lists
      ensures Filed(regions[x := r], lists)
    {
      PutFiled(regions, lists, x, r);
      lists := FilePut(lists, x, r.n);
    }

    /** The collapse with the next region. */
    method Fuse(x: Id, y: Id)
      requires Filed(regions, lists) && Touching(regions, order, x, y)
      modifies this`regions, this`order, this`lists
      ensures Filed(regions, lists) && regions == Fused(old(regions), x, y)
      ensures Spaced(regions, order, 1) && Sum(regions, order) == old(Sum(regions, order))
    {
      var i := Position(order, y);
      MergeSum(regions, order, x, y, i);
      MergeSpaced(regions, order, x, y, i);
      Refile(x, y);
      order := order[..i] + order[i + 1..];
      regions := Fused(regions, x, y);
    }

    /** The list part of the collapse. */
    method Refile(x: Id, y: Id)
      requires Filed(regions, lists) && x in regions && y in regions && x != y && regions[x].n > 0 && regions[y].n > 0
      modifies this`lists
      ensures Filed(Fused(regions, x, y), lists)
    {
      FuseFiled(regions, lists, x, y);
      lists := FileMove(lists, x, regions[x].n, regions[x].n + regions[y].n);
      lists := FileCut(lists, y, regions[y].n);
    }

    /** vmem_free_resize to nothing. */
    method Remove(x: Id)
      requires Spaced(regions, order, 1) && Filed(regions, lists) && x in regions
      modifies this`regions, this`order, this`lists
      ensures Spaced(regions, order, 1) && Filed(regions, lists) && regions == old(regions) - {x}
      ensures Sum(regions, order) + old(regions)[x].n == old(Sum(regions, order))
    {
      var i := Position(order, x);
      RemoveSpaced(regions, order, i);
      SumRemove(regions, order, i);
      CutFiled(regions, lists, x);
      lists := FileCut(lists, x, regions[x].n);
      order := order[..i] + order[i + 1..];
      regions := regions - {x};
    }

    /** vmem_free_resize */
    method Resize(x: Id, n: nat)
      requires Filed(regions, lists) && x in regions && regions[x].n > 0 && n > 0
      modifies this`regions, this`lists
      ensures Filed(regions, lists) && regions == old(regions)[x := Region(old(regions)[x].first, n)]
    {
      var r := regions[x];
      MoveFiled(regions, lists, x, Region(r.first, n));
      lists := FileMove(lists, x, r.n, n);
      regions := regions[x := Region(r.first, n)];
    }
  }

  lemma {:induction false} NoneLargeEnough(regions: Regions, order: seq<Id>, n: nat)
    requires Spaced(regions, order, 1) && Sum(regions, order) < n
    ensures forall x | x in regions :: regions[x].n < n
  {
    forall x | x in regions ensures regions[x].n < n { SumAt(regions, order, Position(order, x)); }
  }

  /** The search through the lists, from the one that a region of just this size would be on. */
  method Find(regions: Regions, lists: seq<seq<Id>>, n: nat) returns (r: Option<Id>)
    requires Filed(regions, lists) && n > 0 && forall x | x in regions :: regions[x].n > 0
    ensures r.Some? ==> r.value in regions && regions[r.value].n >= n
    ensures r.None? ==> forall x | x in regions :: regions[x].n < n
  {
    var k := Index(n);
    while k < LISTS
      invariant Index(n) <= k <= LISTS
      invariant forall j, x | Index(n) <= j < k && x in lists[j] :: x in regions && regions[x].n < n
    {
      r := FirstFit(regions, lists[k], n);
      if r.Some? {
        return;
      }
      k := k + 1;
    }
    r := None;
    forall x | x in regions ensures regions[x].n < n {
      assert x in lists[Index(regions[x].n)];
      if regions[x].n >= n { LogMono(n, regions[x].n); }
    }
  }

  /** The scan of one list in vmem_freelist_alloc. */
  method FirstFit(regions: Regions, list: seq<Id>, n: nat) returns (r: Option<Id>)
    requires forall i | 0 <= i < |list| :: list[i] in regions
    ensures r.Some? ==> r.value in list && regions[r.value].n >= n
    ensures r.None? ==> forall x | x in list :: regions[x].n < n
  {
    for i := 0 to |list|
      invariant forall j | 0 <= j < i :: regions[list[j]].n < n
    {
      if regions[list[i]].n >= n {
        return Some(list[i]);
      }
    }
    return None;
  }
}
