/** The buddy allocator's free lists: what is on them, how much memory they hold, and what each step does to them. */
module BuddyLists {
  import opened Arith
  import opened BuddyModel
  import opened Lists

  // ----- Lists -----

  /** List k holds exactly the free blocks of order k, each once. */
  ghost predicate Listed(pages: Pages, lists: seq<seq<nat>>) {
    && |lists| == ORDERS
    && (forall k | 0 <= k < ORDERS :: NoDup(lists[k]))
    && (forall k, x | 0 <= k < ORDERS :: x in lists[k] <==> Free(pages, x) && pages[x].order == k)
  }

  /** The pages the lists hold together. */
  function Total(lists: seq<seq<nat>>): nat {
    if lists == [] then 0 else Total(lists[..|lists| - 1]) + |lists[|lists| - 1]| * Pow(|lists| - 1)
  }

  lemma {:induction false} TotalSet(lists: seq<seq<nat>>, k: nat, l: seq<nat>)
    requires k < |lists|
    ensures Total(lists[k := l]) + |lists[k]| * Pow(k) == Total(lists) + |l| * Pow(k)
  {
    var n := |lists| - 1;
    if k == n {
      assert lists[k := l][..n] == lists[..n];
    } else {
      assert lists[k := l][..n] == lists[..n][k := l];
      TotalSet(lists[..n], k, l);
    }
  }

  lemma {:induction false} TotalPositive(lists: seq<seq<nat>>)
    requires Total(lists) > 0
    ensures exists k :: 0 <= k < |lists| && lists[k] != []
  {
    var n := |lists| - 1;
    if lists[n] == [] {
      TotalPositive(lists[..n]);
      var k :| 0 <= k < n && lists[..n][k] != [];
      assert lists[k] != [];
    }
  }

  // ----- Free frames -----

  ghost predicate InFree(pages: Pages, y: nat) { exists x :: Free(pages, x) && InBlock(x, pages[x].order, y) }

  ghost function FreeFrames(pages: Pages): set<nat> { set y | y in pages && InFree(pages, y) }

  ghost function Range(x: nat, n: nat): set<nat> { if n == 0 then {} else Range(x, n - 1) + {x + n - 1} }

  ghost function Span(x: nat, k: nat): set<nat> { Range(x, Pow(k)) }

  lemma {:induction false} RangeIs(x: nat, n: nat)
    ensures |Range(x, n)| == n && forall y :: y in Range(x, n) <==> x <= y < x + n
  {
    if n > 0 { RangeIs(x, n - 1); }
  }

  lemma {:induction false} SpanIs(x: nat, k: nat)
    ensures |Span(x, k)| == Pow(k) && forall y :: y in Span(x, k) <==> InBlock(x, k, y)
  {
    RangeIs(x, Pow(k));
  }

  // ----- Putting blocks on the lists and taking them off -----

  function Marked(pages: Pages, x: nat, free: bool): Pages
    requires x in pages
  {
    pages[x := pages[x].(free := free)]
  }

  lemma {:induction false} MarkBlocks(segs: seq<Seg>, pages: Pages, x: nat, free: bool)
    requires Blocks(segs, pages) && Head(pages, x)
    ensures Blocks(segs, Marked(pages, x, free))
  {
    var pages' := Marked(pages, x, free);
    forall z | Head(pages', z) ensures BlockOk(segs, pages', z) { assert BlockOk(segs, pages, z); }
    forall z | Free(pages', z) ensures Head(pages', z) { assert z != x ==> Free(pages, z); }
    forall z | z in pages' ensures Covered(pages', z) {
      assert Covered(pages, z);
      var h :| Head(pages, h) && InBlock(h, pages[h].order, z);
      assert Head(pages', h) && InBlock(h, pages'[h].order, z);
    }
  }

  lemma {:induction false} MarkAligned(pages: Pages, x: nat, free: bool)
    requires Aligned(pages) && Head(pages, x)
    ensures Aligned(Marked(pages, x, free))
  {
    forall z | Head(Marked(pages, x, free), z)
      ensures AlignedAt(Marked(pages, x, free), z)
    {
      assert AlignedAt(pages, z);
    }
  }

  lemma {:induction false} PutInFree(pages: Pages, x: nat, y: nat)
    requires Allocated(pages, x)
    ensures InFree(Marked(pages, x, true), y) <==> InFree(pages, y) || InBlock(x, pages[x].order, y)
  {
    var pages' := Marked(pages, x, true);
    if InFree(pages, y) {
      var z: nat :| Free(pages, z) && InBlock(z, pages[z].order, y);
      assert Free(pages', z) && InBlock(z, pages'[z].order, y);
    }
    if InBlock(x, pages[x].order, y) { assert Free(pages', x) && InBlock(x, pages'[x].order, y); }
    if InFree(pages', y) {
      var z: nat :| Free(pages', z) && InBlock(z, pages'[z].order, y);
      assert z == x || (Free(pages, z) && InBlock(z, pages[z].order, y));
    }
  }

  lemma {:induction false} AllocatedNotFree(segs: seq<Seg>, pages: Pages, x: nat, y: nat)
    requires Blocks(segs, pages) && Allocated(pages, x) && InFree(pages, y)
    ensures !InBlock(x, pages[x].order, y)
  {
    var z: nat :| Free(pages, z) && InBlock(z, pages[z].order, y);
    assert Head(pages, z);
    if InBlock(x, pages[x].order, y) {
      BlocksDisjoint(segs, pages, x, z, y);
      assert false;
    }
  }

  /** A block going on a list adds its frames to the free ones. */
  lemma {:induction false} PutFrames(segs: seq<Seg>, pages: Pages, x: nat)
    requires Blocks(segs, pages) && Allocated(pages, x)
    ensures
      var after := FreeFrames(Marked(pages, x, true));
      && after == FreeFrames(pages) + Span(x, pages[x].order) && FreeFrames(pages) !! Span(x, pages[x].order)
      && |after| == |FreeFrames(pages)| + Pow(pages[x].order)
  {
    var span := Span(x, pages[x].order);
    SpanIs(x, pages[x].order);
    forall y: nat ensures y in FreeFrames(Marked(pages, x, true)) <==> y in FreeFrames(pages) || y in span {
      PutInFree(pages, x, y);
      assert BlockOk(segs, pages, x);
    }
    forall y | y in FreeFrames(pages) ensures y !in span { AllocatedNotFree(segs, pages, x, y); }
    Union(FreeFrames(pages), span, FreeFrames(Marked(pages, x, true)));
  }

  lemma {:induction false} Union(a: set<nat>, b: set<nat>, c: set<nat>)
    requires a !! b && forall y: nat :: y in c <==> y in a || y in b
    ensures c == a + b && |c| == |a| + |b|
  {
    assert c == a + b;
  }

  /** A change of orders that no free block takes part in. */
  ghost predicate FreeUntouched(pages: Pages, pages': Pages) {
    && pages'.Keys == pages.Keys
    && forall z | z in pages :: pages'[z].free == pages[z].free && (pages[z].free ==> pages'[z].order == pages[z].order)
  }

  lemma {:induction false} SameInFree(pages: Pages, pages': Pages, y: nat)
    requires FreeUntouched(pages, pages')
    ensures InFree(pages', y) <==> InFree(pages, y)
  {
    if InFree(pages, y) {
      var z: nat :| Free(pages, z) && InBlock(z, pages[z].order, y);
      assert Free(pages', z) && InBlock(z, pages'[z].order, y);
    }
    if InFree(pages', y) {
      var z: nat :| Free(pages', z) && InBlock(z, pages'[z].order, y);
      assert Free(pages, z) && InBlock(z, pages[z].order, y);
    }
  }

  lemma {:induction false} SameListed(pages: Pages, pages': Pages, lists: seq<seq<nat>>)
    requires FreeUntouched(pages, pages') && Listed(pages, lists)
    ensures Listed(pages', lists)
  {
    forall k, x | 0 <= k < ORDERS ensures x in lists[k] <==> Free(pages', x) && pages'[x].order == k {
      assert x in lists[k] <==> Free(pages, x) && pages[x].order == k;
    }
  }

  // ----- The whole state -----

  ghost predicate Consistent(segs: seq<Seg>, pages: Pages, lists: seq<seq<nat>>) {
    && Framed(segs, pages) && Blocks(segs, pages) && Aligned(pages) && Merged(pages)
    && Listed(pages, lists)
  }

  function Added(lists: seq<seq<nat>>, k: nat, x: nat): seq<seq<nat>>
    requires k < |lists|
  {
    lists[k := lists[k] + [x]]
  }

  function Removed(lists: seq<seq<nat>>, k: nat, x: nat): seq<seq<nat>>
    requires k < |lists|
  {
    lists[k := Without(lists[k], x)]
  }

  lemma {:induction false} PutListed(pages: Pages, lists: seq<seq<nat>>, x: nat)
    requires Listed(pages, lists) && Allocated(pages, x) && pages[x].order < ORDERS
    ensures
      var k := pages[x].order;
      Listed(Marked(pages, x, true), Added(lists, k, x)) && Total(Added(lists, k, x)) == Total(lists) + Pow(k)
  {
    var k := pages[x].order;
    var pages', lists' := Marked(pages, x, true), Added(lists, k, x);
    TotalSet(lists, k, lists[k] + [x]);
    assert (|lists[k]| + 1) * Pow(k) == |lists[k]| * Pow(k) + Pow(k);
    assert x !in lists[k];
    forall j, z | 0 <= j < ORDERS ensures z in lists'[j] <==> Free(pages', z) && pages'[z].order == j {
      assert z in lists[j] <==> Free(pages, z) && pages[z].order == j;
    }
  }

  lemma {:induction false} TakeListed(pages: Pages, lists: seq<seq<nat>>, x: nat)
    requires Listed(pages, lists) && Free(pages, x) && pages[x].order < ORDERS
    ensures
      var k := pages[x].order;
      Listed(Marked(pages, x, false), Removed(lists, k, x)) && Total(Removed(lists, k, x)) + Pow(k) == Total(lists)
  {
    var k := pages[x].order;
    var pages', lists' := Marked(pages, x, false), Removed(lists, k, x);
    assert x in lists[k];
    WithoutElems(lists[k], x);
    TotalSet(lists, k, Without(lists[k], x));
    assert |lists[k]| * Pow(k) == (|lists[k]| - 1) * Pow(k) + Pow(k);
    forall j, z | 0 <= j < ORDERS ensures z in lists'[j] <==> Free(pages', z) && pages'[z].order == j {
      assert z in lists[j] <==> Free(pages, z) && pages[z].order == j;
    }
  }

  lemma {:induction false} PutMerged(pages: Pages, x: nat)
    requires Merged(pages) && Aligned(pages) && Allocated(pages, x) && !Mergeable(Marked(pages, x, true), x)
    requires forall z | Free(pages, z) :: Head(pages, z)
    ensures Merged(Marked(pages, x, true))
  {
    var pages' := Marked(pages, x, true);
    assert AlignedAt(pages, x);
    forall z ensures !Mergeable(pages', z) {
      assert !Mergeable(pages, z);
      if Mergeable(pages', z) && z != x {
        assert Free(pages, z) && AlignedAt(pages, z);
        BuddyAligned(z, pages[z].order);
      }
    }
  }

  lemma {:induction false} TakeMerged(pages: Pages, x: nat)
    requires Merged(pages) && Free(pages, x)
    ensures Merged(Marked(pages, x, false))
  {
    forall z ensures !Mergeable(Marked(pages, x, false), z) { assert !Mergeable(pages, z); }
  }

  lemma {:induction false} PutConsistent(segs: seq<Seg>, pages: Pages, lists: seq<seq<nat>>, x: nat)
    requires Consistent(segs, pages, lists) && Allocated(pages, x) && !Mergeable(Marked(pages, x, true), x)
    ensures pages[x].order < ORDERS && Consistent(segs, Marked(pages, x, true), Added(lists, pages[x].order, x))
    ensures Total(Added(lists, pages[x].order, x)) == Total(lists) + Pow(pages[x].order)
  {
    assert BlockOk(segs, pages, x);
    Reframed(segs, pages, Marked(pages, x, true));
    MarkBlocks(segs, pages, x, true);
    MarkAligned(pages, x, true);
    PutMerged(pages, x);
    PutListed(pages, lists, x);
  }

  lemma {:induction false} TakeConsistent(segs: seq<Seg>, pages: Pages, lists: seq<seq<nat>>, x: nat)
    requires Consistent(segs, pages, lists) && Free(pages, x)
    ensures pages[x].order < ORDERS && Consistent(segs, Marked(pages, x, false), Removed(lists, pages[x].order, x))
    ensures Total(lists) == Total(Removed(lists, pages[x].order, x)) + Pow(pages[x].order)
  {
    assert Head(pages, x) && BlockOk(segs, pages, x);
    Reframed(segs, pages, Marked(pages, x, false));
    MarkBlocks(segs, pages, x, false);
    MarkAligned(pages, x, false);
    TakeMerged(pages, x);
    TakeListed(pages, lists, x);
  }

  lemma {:induction false} HalveConsistent(segs: seq<Seg>, pages: Pages, lists: seq<seq<nat>>, x: nat)
    requires Consistent(segs, pages, lists) && Allocated(pages, x) && pages[x].order > 0
      && x + Pow(pages[x].order - 1) in pages
    ensures Consistent(segs, Halved(pages, x), lists)
  {
    HalveReady(segs, pages, x);
    Reframed(segs, pages, Halved(pages, x));
    HalveBlocks(segs, pages, x);
    HalveAligned(segs, pages, x);
    HalveMerged(segs, pages, x);
    SameListed(pages, Halved(pages, x), lists);
  }

  lemma {:induction false} JoinConsistent(segs: seq<Seg>, pages: Pages, lists: seq<seq<nat>>, x: nat)
    requires Consistent(segs, pages, lists) && Joinable(segs, pages, x)
    ensures Consistent(segs, Joined(pages, x), lists)
  {
    JoinFused(segs, pages, x);
    Reframed(segs, pages, Joined(pages, x));
    JoinBlocks(segs, pages, x);
    JoinAligned(segs, pages, x);
    JoinMerged(segs, pages, x);
    SameListed(pages, Joined(pages, x), lists);
  }

  /** The upper half of a block in hand goes on a list: it cannot be merged, its buddy is in hand. */
  lemma {:induction false} HalfNotMergeable(pages: Pages, x: nat)
    requires Aligned(pages) && Allocated(pages, x) && 0 < pages[x].order < ORDERS
      && x + Pow(pages[x].order - 1) in pages
    ensures !Mergeable(Marked(Halved(pages, x), x + Pow(pages[x].order - 1), true), x + Pow(pages[x].order - 1))
  {
    assert AlignedAt(pages, x);
    HalfAligned(x, pages[x].order - 1);
  }

  /** Allocated blocks outside the span are left alone. */
  ghost predicate Kept(pages: Pages, pages': Pages, span: set<nat>) {
    forall z | Allocated(pages, z) && z !in span :: z in pages' && pages'[z] == pages[z]
  }
}
