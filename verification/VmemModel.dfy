/** The kernel address allocator (vm/vmem.c): free regions, kept by address in a tree and by size on lists. */
module VmemModel {
  import opened Arith
  import opened Lists
  import opened SearchTree

  const LISTS: nat := 17

  /** A free region, in pages. */
  datatype Region = Region(first: nat, n: nat)

  type Regions = map<Id, Region>

  predicate In(r: Region, p: nat) { r.first <= p < r.first + r.n }

  ghost predicate IsFree(regions: Regions, p: nat) { exists x :: x in regions && In(regions[x], p) }

  // ----- Lists by size -----

  function Log(n: nat): nat
    requires n > 0
  {
    if n == 1 then 0 else 1 + Log(n / 2)
  }

  /** Log is the floor of the binary logarithm. */
  lemma {:induction false} LogIs(n: nat)
    requires n > 0
    ensures Pow(Log(n)) <= n < 2 * Pow(Log(n))
  {
    if n > 1 { LogIs(n / 2); }
  }

  lemma {:induction false} LogMono(a: nat, b: nat)
    requires 0 < a <= b
    ensures Log(a) <= Log(b)
  {
    if a > 1 { LogMono(a / 2, b / 2); }
  }

  /** vmem_freelist_idx */
  function Index(n: nat): (k: nat)
    requires n > 0
    ensures k < LISTS
  {
    if Log(n) < LISTS - 1 then Log(n) else LISTS - 1
  }

  /** Each region is on the list for its size, once, and nothing else is. */
  ghost predicate Filed(regions: Regions, lists: seq<seq<Id>>) {
    && |lists| == LISTS
    && (forall k | 0 <= k < LISTS :: NoDup(lists[k]))
    && (forall k, x | 0 <= k < LISTS :: x in lists[k] <==> x in regions && regions[x].n > 0 && Index(regions[x].n) == k)
  }

  /** vmem_free_create, the list part. */
  function FilePut(lists: seq<seq<Id>>, x: Id, n: nat): seq<seq<Id>>
    requires |lists| == LISTS && n > 0
  {
    lists[Index(n) := [x] + lists[Index(n)]]
  }

  function FileCut(lists: seq<seq<Id>>, x: Id, n: nat): seq<seq<Id>>
    requires |lists| == LISTS && n > 0
  {
    lists[Index(n) := Without(lists[Index(n)], x)]
  }

  /** vmem_free_resize, the list part. */
  function FileMove(lists: seq<seq<Id>>, x: Id, from: nat, to: nat): seq<seq<Id>>
    requires |lists| == LISTS && from > 0 && to > 0
  {
    if Index(from) == Index(to) then lists else FilePut(FileCut(lists, x, from), x, to)
  }

  lemma {:induction false} PutFiled(regions: Regions, lists: seq<seq<Id>>, x: Id, r: Region)
    requires Filed(regions, lists) && x !in regions && r.n > 0
    ensures Filed(regions[x := r], FilePut(lists, x, r.n))
  {
    var lists' := FilePut(lists, x, r.n);
    assert x !in lists[Index(r.n)];
    forall k | 0 <= k < LISTS ensures NoDup(lists'[k]) {}
    forall k, y | 0 <= k < LISTS ensures y in lists'[k] <==>
      y in regions[x := r] && regions[x := r][y].n > 0 && Index(regions[x := r][y].n) == k {
      assert y in lists[k] <==> y in regions && regions[y].n > 0 && Index(regions[y].n) == k;
    }
  }

  lemma {:induction false} CutFiled(regions: Regions, lists: seq<seq<Id>>, x: Id)
    requires Filed(regions, lists) && x in regions && regions[x].n > 0
    ensures Filed(regions - {x}, FileCut(lists, x, regions[x].n))
  {
    var k0 := Index(regions[x].n);
    WithoutElems(lists[k0], x);
    var lists' := FileCut(lists, x, regions[x].n);
    forall k, y | 0 <= k < LISTS ensures y in lists'[k] <==>
      y in regions - {x} && (regions - {x})[y].n > 0 && Index((regions - {x})[y].n) == k {
      assert y in lists[k] <==> y in regions && regions[y].n > 0 && Index(regions[y].n) == k;
    }
  }

  lemma {:induction false} MoveFiled(regions: Regions, lists: seq<seq<Id>>, x: Id, r: Region)
    requires Filed(regions, lists) && x in regions && regions[x].n > 0 && r.n > 0
    ensures Filed(regions[x := r], FileMove(lists, x, regions[x].n, r.n))
  {
    if Index(regions[x].n) == Index(r.n) {
      forall k, y | 0 <= k < LISTS ensures y in lists[k] <==>
        y in regions[x := r] && regions[x := r][y].n > 0 && Index(regions[x := r][y].n) == k {
        assert y in lists[k] <==> y in regions && regions[y].n > 0 && Index(regions[y].n) == k;
      }
    } else {
      CutFiled(regions, lists, x);
      PutFiled(regions - {x}, FileCut(lists, x, regions[x].n), x, r);
      assert (regions - {x})[x := r] == regions[x := r];
    }
  }

  // ----- The tree by address -----

  /** Regions in address order with at least `gap` pages between them. */
  ghost predicate Spaced(regions: Regions, order: seq<Id>, gap: nat) {
    && NoDup(order) && (forall x :: x in order <==> x in regions)
    && (forall x | x in regions :: regions[x].n > 0)
    && Sparse(regions, order, gap)
  }

  ghost predicate Sparse(regions: Regions, order: seq<Id>, gap: nat) {
    forall i, j {:trigger Before(regions, order, i, j, gap)} | 0 <= i < j < |order| :: Before(regions, order, i, j, gap)
  }

  ghost predicate Before(regions: Regions, order: seq<Id>, i: int, j: int, gap: nat) {
    && 0 <= i < |order| && 0 <= j < |order| && order[i] in regions && order[j] in regions
    && regions[order[i]].first + regions[order[i]].n + gap <= regions[order[j]].first
  }

  /** Two regions share no page and do not touch. */
  lemma {:induction false} RegionsApart(regions: Regions, order: seq<Id>, x: Id, y: Id)
    requires Spaced(regions, order, 1) && x in regions && y in regions && x != y
    ensures regions[x].first + regions[x].n < regions[y].first || regions[y].first + regions[y].n < regions[x].first
  {
    var i, j := Position(order, x), Position(order, y);
    if i < j { assert Before(regions, order, i, j, 1); } else { assert Before(regions, order, j, i, 1); }
  }

  lemma {:induction false} AllBefore(regions: Regions, order: seq<Id>, mid: nat)
    requires Sparse(regions, order, 0) && mid < |order| && forall i | 0 <= i < |order| :: order[i] in regions
    ensures forall i | 0 <= i < mid :: regions[order[i]].first + regions[order[i]].n <= regions[order[mid]].first
    ensures forall i | mid < i < |order| :: regions[order[mid]].first + regions[order[mid]].n <= regions[order[i]].first
  {
    forall i | 0 <= i < mid ensures regions[order[i]].first + regions[order[i]].n <= regions[order[mid]].first {
      assert Before(regions, order, i, mid, 0);
    }
    forall i | mid < i < |order| ensures regions[order[mid]].first + regions[order[mid]].n <= regions[order[i]].first {
      assert Before(regions, order, mid, i, 0);
    }
  }

  /** vmem_get_free_at, over whatever shape the tree has. */
  method FreeAt(regions: Regions, ghost order: seq<Id>, tree: Tree, p: nat) returns (r: Option<Id>)
    requires Sparse(regions, order, 0) && (forall x :: x in order <==> x in regions) && Inorder(tree) == order
    ensures r.Some? ==> r.value in regions && In(regions[r.value], p)
    ensures r.None? ==> !IsFree(regions, p)
  {
    var t := tree;
    ghost var lo, hi: nat := 0, |order|;
    while t.Bin?
      invariant Stretch(t, order, lo, hi)
      invariant forall i | 0 <= i < |order| && In(regions[order[i]], p) :: lo <= i < hi
      decreases t
    {
      ghost var mid := Descend(t, order, lo, hi);
      AllBefore(regions, order, mid);
      var c := regions[t.id];
      if p >= c.first && p < c.first + c.n {
        return Some(t.id);
      } else if p < c.first {
        t, hi := t.left, mid;
      } else {
        t, lo := t.right, mid + 1;
      }
    }
    return None;
  }

  // ----- The free counter -----

  function Sum(regions: Regions, order: seq<Id>): nat
    requires forall i | 0 <= i < |order| :: order[i] in regions
  {
    if order == [] then 0 else Sum(regions, order[..|order| - 1]) + regions[order[|order| - 1]].n
  }

  lemma {:induction false} SumSplit(regions: Regions, a: seq<Id>, b: seq<Id>)
    requires (forall i | 0 <= i < |a| :: a[i] in regions) && (forall i | 0 <= i < |b| :: b[i] in regions)
    ensures Sum(regions, a + b) == Sum(regions, a) + Sum(regions, b)
  {
    if b == [] {
      assert a + b == a;
    } else {
      var n := |b| - 1;
      assert (a + b)[..|a + b| - 1] == a + b[..n];
      SumSplit(regions, a, b[..n]);
    }
  }

  lemma {:induction false} SumSame(r: Regions, s: Regions, order: seq<Id>)
    requires forall i | 0 <= i < |order| :: order[i] in r && order[i] in s && s[order[i]].n == r[order[i]].n
    ensures Sum(s, order) == Sum(r, order)
  {
    if order != [] { SumSame(r, s, order[..|order| - 1]); }
  }

  /** One region's share of the sum. */
  lemma {:induction false} SumAt(regions: Regions, order: seq<Id>, i: nat)
    requires i < |order| && forall k | 0 <= k < |order| :: order[k] in regions
    ensures Sum(regions, order) == Sum(regions, order[..i]) + regions[order[i]].n + Sum(regions, order[i + 1..])
  {
    SumSplit(regions, order[..i], [order[i]]);
    SumSplit(regions, order[..i] + [order[i]], order[i + 1..]);
    assert order == order[..i] + [order[i]] + order[i + 1..];
    assert [order[i]][..0] == [];
  }

  /** A region that changes its size changes the sum by as much. */
  lemma {:induction false} SumResize(regions: Regions, order: seq<Id>, x: Id, r: Region)
    requires NoDup(order) && (forall i | 0 <= i < |order| :: order[i] in regions) && x in order
    ensures Sum(regions[x := r], order) + regions[x].n == Sum(regions, order) + r.n
  {
    var k := Position(order, x);
    var regions' := regions[x := r];
    SumAt(regions, order, k);
    SumAt(regions', order, k);
    SumSame(regions, regions', order[..k]);
    SumSame(regions, regions', order[k + 1..]);
  }

  lemma {:induction false} SumRemove(regions: Regions, order: seq<Id>, i: nat)
    requires NoDup(order) && (forall k | 0 <= k < |order| :: order[k] in regions) && i < |order|
    ensures
      var order' := order[..i] + order[i + 1..];
      && (forall k | 0 <= k < |order'| :: order'[k] in regions - {order[i]})
      && Sum(regions - {order[i]}, order') + regions[order[i]].n == Sum(regions, order)
  {
    var regions' := regions - {order[i]};
    SumAt(regions, order, i);
    SumSame(regions, regions', order[..i]);
    SumSame(regions, regions', order[i + 1..]);
    SumSplit(regions', order[..i], order[i + 1..]);
  }

  lemma {:induction false} SumInsert(regions: Regions, order: seq<Id>, i: nat, x: Id, r: Region)
    requires (forall k | 0 <= k < |order| :: order[k] in regions) && i <= |order| && x !in regions
    ensures Sum(regions[x := r], order[..i] + [x] + order[i..]) == Sum(regions, order) + r.n
  {
    var regions' := regions[x := r];
    SumSplit(regions', order[..i], [x]);
    SumSplit(regions', order[..i] + [x], order[i..]);
    SumSplit(regions, order[..i], order[i..]);
    SumSame(regions, regions', order[..i]);
    SumSame(regions, regions', order[i..]);
    assert order == order[..i] + order[i..] && [x][..0] == [];
  }
}
