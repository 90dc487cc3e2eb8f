/** The physical memory allocator as it runs: pages, free lists and the free counter updated in place. */
module BuddyAllocator {
  import opened Arith
  import opened BuddyModel
  import opened BuddyLists
  import opened Lists

  /** NoBlock is the panic after a search that found no block large enough. */
  datatype Outcome = MustWait | NoBlock | Got(page: nat)

  lemma {:induction false} NoneLeft(segs: seq<Seg>, pages: Pages, lists: seq<seq<nat>>, order: nat)
    requires Blocks(segs, pages) && Listed(pages, lists) && order < ORDERS
    ensures (forall k | order <= k < ORDERS :: lists[k] == []) <==>
      (forall x | Free(pages, x) :: pages[x].order < order)
  {
    if forall k | order <= k < ORDERS :: lists[k] == [] {
      forall x | Free(pages, x) ensures pages[x].order < order {
        assert Head(pages, x) && BlockOk(segs, pages, x);
        assert x in lists[pages[x].order];
      }
    } else {
      var k :| order <= k < ORDERS && lists[k] != [];
      var x := lists[k][0];
      assert x in lists[k];
      assert Free(pages, x) && pages[x].order == k;
    }
  }

  /** x is a free block that is large enough, and no smaller one is. */
  ghost predicate Least(pages: Pages, x: nat, order: nat) {
    && Free(pages, x) && order <= pages[x].order
    && forall y | Free(pages, y) && order <= pages[y].order :: pages[x].order <= pages[y].order
  }

  lemma {:induction false} LeastFirst(segs: seq<Seg>, pages: Pages, lists: seq<seq<nat>>, order: nat, i: nat)
    requires Blocks(segs, pages) && Listed(pages, lists) && order <= i < ORDERS && lists[i] != []
    requires forall k | order <= k < i :: lists[k] == []
    ensures Least(pages, lists[i][0], order)
  {
    assert lists[i][0] in lists[i];
    forall y | Free(pages, y) && order <= pages[y].order ensures i <= pages[y].order {
      assert Head(pages, y) && BlockOk(segs, pages, y);
      assert y in lists[pages[y].order];
    }
  }

  /** The counter counts the frames of the free blocks. */
  ghost predicate Sized(pages: Pages, lists: seq<seq<nat>>) { Total(lists) == |FreeFrames(pages)| }

  /** Memory that is not free and memory that is fit into the total: the pressure counter cannot overflow. */
  lemma {:induction false} RoomToFree(segs: seq<Seg>, pages: Pages, lists: seq<seq<nat>>, x: nat)
    requires Blocks(segs, pages) && Sized(pages, lists) && Allocated(pages, x)
    ensures Total(lists) + Pow(pages[x].order) <= |pages.Keys|
  {
    PutFrames(segs, pages, x);
    var after := FreeFrames(Marked(pages, x, true));
    assert after <= pages.Keys;
    assert pages.Keys == after + (pages.Keys - after);
  }

  /** The free frames of `more` are those of `less` and, apart from them, the block of order k at x. */
  ghost predicate Gains(less: Pages, more: Pages, x: nat, k: nat) {
    forall y: nat {:trigger InFree(more, y)} {:trigger InFree(less, y)} ::
      (InFree(more, y) <==> InFree(less, y) || InBlock(x, k, y)) && !(InFree(less, y) && InBlock(x, k, y))
  }

  lemma {:induction false} PutGains(segs: seq<Seg>, pages: Pages, x: nat)
    requires Blocks(segs, pages) && Allocated(pages, x)
    ensures Gains(pages, Marked(pages, x, true), x, pages[x].order)
  {
    forall y: nat ensures (InFree(Marked(pages, x, true), y) <==> InFree(pages, y) || InBlock(x, pages[x].order, y))
      && !(InFree(pages, y) && InBlock(x, pages[x].order, y)) {
      PutInFree(pages, x, y);
      if InFree(pages, y) { AllocatedNotFree(segs, pages, x, y); }
    }
  }

  lemma {:induction false} TakeGains(segs: seq<Seg>, pages: Pages, x: nat)
    requires Blocks(segs, pages) && Free(pages, x)
    ensures Gains(Marked(pages, x, false), pages, x, pages[x].order)
  {
    assert Head(pages, x);
    MarkBlocks(segs, pages, x, false);
    assert Marked(Marked(pages, x, false), x, true) == pages;
    PutGains(segs, Marked(pages, x, false), x);
  }

  /** What gains a block gains its size. */
  lemma {:induction false} GainsSize(segs: seq<Seg>, less: Pages, more: Pages, x: nat, k: nat)
    requires Blocks(segs, less) && Blocks(segs, more) && Gains(less, more, x, k)
    ensures |FreeFrames(more)| == |FreeFrames(less)| + Pow(k)
  {
    SpanIs(x, k);
    forall y: nat ensures y in FreeFrames(more) <==> y in FreeFrames(less) || y in Span(x, k) {
      InFreePage(segs, less, y);
      InFreePage(segs, more, y);
    }
    forall y | y in FreeFrames(less) ensures y !in Span(x, k) { InFreePage(segs, less, y); }
    Union(FreeFrames(less), Span(x, k), FreeFrames(more));
  }

  /** Holding x with the same frames, what gained the one block gains the other. */
  lemma {:induction false} MovedGains(segs: seq<Seg>, less: Pages, x: nat, less': Pages, x': nat, more: Pages)
    requires Blocks(segs, less') && x in less && Allocated(less', x') && Gains(less, more, x, less[x].order)
    requires forall y: nat :: HasFrame(less', x', y) <==> HasFrame(less, x, y)
    ensures Gains(less', more, x', less'[x'].order)
  {
    forall y: nat ensures (InFree(more, y) <==> InFree(less', y) || InBlock(x', less'[x'].order, y))
      && !(InFree(less', y) && InBlock(x', less'[x'].order, y)) {
      assert HasFrame(less', x', y) <==> HasFrame(less, x, y);
      if InFree(less', y) { AllocatedNotFree(segs, less', x', y); }
    }
  }

  /** The frames that are free or in the block x, which a method holds. */
  ghost predicate HasFrame(pages: Pages, x: nat, y: nat)
    requires x in pages
  {
    InFree(pages, y) || InBlock(x, pages[x].order, y)
  }

  lemma {:induction false} InFreePage(segs: seq<Seg>, pages: Pages, y: nat)
    requires Blocks(segs, pages)
    ensures InFree(pages, y) <==> y in FreeFrames(pages)
  {
    if InFree(pages, y) {
      var z: nat :| Free(pages, z) && InBlock(z, pages[z].order, y);
      assert Head(pages, z) && BlockOk(segs, pages, z);
    }
  }

  /**
   From holding the block x to holding the block x' with the same frames free or in hand, the same
   sum of the counter and the block, and every other allocated block left alone.
   */
  ghost predicate Moved(pages: Pages, lists: seq<seq<nat>>, x: nat, pages': Pages, lists': seq<seq<nat>>, x': nat)
    requires x in pages && x' in pages'
  {
    && pages'.Keys == pages.Keys && Kept(pages, pages', {x}) && (x' == x || !Allocated(pages, x'))
    && (forall y: nat :: HasFrame(pages', x', y) <==> HasFrame(pages, x, y))
    && Total(lists') + Pow(pages'[x'].order) == Total(lists) + Pow(pages[x].order)
  }

  lemma {:induction false} SplitStep(segs: seq<Seg>, pages: Pages, lists: seq<seq<nat>>, x: nat)
    requires Consistent(segs, pages, lists) && Allocated(pages, x) && pages[x].order > 0
    ensures
      var k := pages[x].order - 1;
      var y := x + Pow(k);
      && y in pages && pages[x].order < ORDERS && pages[y].order == NONE && !pages[y].free
      && Consistent(segs, Marked(Halved(pages, x), y, true), Added(lists, k, y))
      && Total(Added(lists, k, y)) == Total(lists) + Pow(k)
  {
    HalveReady(segs, pages, x);
    assert BlockOk(segs, pages, x);
    HalveConsistent(segs, pages, lists, x);
    HalfNotMergeable(pages, x);
    PutConsistent(segs, Halved(pages, x), lists, x + Pow(pages[x].order - 1));
  }

  lemma {:induction false} SplitFrame(segs: seq<Seg>, pages: Pages, x: nat, y: nat)
    requires Blocks(segs, pages) && Allocated(pages, x) && pages[x].order > 0
    ensures
      var h := x + Pow(pages[x].order - 1);
      h in pages && (HasFrame(Marked(Halved(pages, x), h, true), x, y) <==> HasFrame(pages, x, y))
  {
    HalveReady(segs, pages, x);
    assert BlockOk(segs, pages, x);
    SameInFree(pages, Halved(pages, x), y);
    PutInFree(Halved(pages, x), x + Pow(pages[x].order - 1), y);
  }

  lemma {:induction false} SplitMoved(segs: seq<Seg>, pages: Pages, lists: seq<seq<nat>>, x: nat)
    requires Blocks(segs, pages) && Allocated(pages, x) && 0 < pages[x].order < ORDERS && |lists| == ORDERS
    requires var k := pages[x].order - 1; Total(Added(lists, k, x + Pow(k))) == Total(lists) + Pow(k)
    ensures
      var k := pages[x].order - 1;
      x + Pow(k) in pages
        && Moved(pages, lists, x, Marked(Halved(pages, x), x + Pow(k), true), Added(lists, k, x + Pow(k)), x)
  {
    HalveReady(segs, pages, x);
    forall y: nat { SplitFrame(segs, pages, x, y); }
  }

  lemma {:induction false} MergeReady(segs: seq<Seg>, pages: Pages, lists: seq<seq<nat>>, x: nat)
    requires Consistent(segs, pages, lists) && Allocated(pages, x) && Mergeable(Marked(pages, x, true), x)
    ensures
      var k := pages[x].order;
      var b := Buddy(x, k);
      && b != x && Free(pages, b) && pages[b].order == k && k < ORDERS - 1
      && Joinable(segs, Marked(pages, b, false), x)
      && (Lower(x, k) == x || Lower(x, k) == b)
  {
    assert AlignedAt(pages, x);
    BuddyAligned(x, pages[x].order);
  }

  lemma {:induction false} MergeStep(segs: seq<Seg>, pages: Pages, lists: seq<seq<nat>>, x: nat)
    requires Consistent(segs, pages, lists) && Allocated(pages, x) && Mergeable(Marked(pages, x, true), x)
    ensures
      var k := pages[x].order;
      var b := Buddy(x, k);
      && Free(pages, b) && pages[b].order == k < ORDERS - 1 && Joinable(segs, Marked(pages, b, false), x)
      && Consistent(segs, Joined(Marked(pages, b, false), x), Removed(lists, k, b))
      && Total(lists) == Total(Removed(lists, k, b)) + Pow(k)
  {
    MergeReady(segs, pages, lists, x);
    var k := pages[x].order;
    TakeConsistent(segs, pages, lists, Buddy(x, k));
    JoinConsistent(segs, Marked(pages, Buddy(x, k), false), Removed(lists, k, Buddy(x, k)), x);
  }

  lemma {:induction false} MergeFrame(segs: seq<Seg>, pages: Pages, lists: seq<seq<nat>>, x: nat, y: nat)
    requires Consistent(segs, pages, lists) && Allocated(pages, x) && Mergeable(Marked(pages, x, true), x)
    ensures
      var b, g := Buddy(x, pages[x].order), Lower(x, pages[x].order);
      && b in pages && Joinable(segs, Marked(pages, b, false), x)
      && (HasFrame(Joined(Marked(pages, b, false), x), g, y) <==> HasFrame(pages, x, y))
  {
    MergeReady(segs, pages, lists, x);
    var b := Buddy(x, pages[x].order);
    var taken := Marked(pages, b, false);
    assert Marked(taken, b, true) == pages;
    PutInFree(taken, b, y);
    JoinFused(segs, taken, x);
    SameInFree(taken, Joined(taken, x), y);
  }

  lemma {:induction false} MergeMoved(segs: seq<Seg>, pages: Pages, lists: seq<seq<nat>>, x: nat)
    requires Consistent(segs, pages, lists) && Allocated(pages, x) && Mergeable(Marked(pages, x, true), x)
    requires pages[x].order < ORDERS
    requires var k := pages[x].order; Total(lists) == Total(Removed(lists, k, Buddy(x, k))) + Pow(k)
    ensures
      var k := pages[x].order;
      var b := Buddy(x, k);
      && b in pages && Joinable(segs, Marked(pages, b, false), x)
      && Lower(x, k) in Joined(Marked(pages, b, false), x)
      && Moved(pages, lists, x, Joined(Marked(pages, b, false), x), Removed(lists, k, b), Lower(x, k))
  {
    MergeReady(segs, pages, lists, x);
    JoinFused(segs, Marked(pages, Buddy(x, pages[x].order), false), x);
    forall y: nat { MergeFrame(segs, pages, lists, x, y); }
  }

  lemma {:induction false} MovedTwice(p1: Pages, l1: seq<seq<nat>>, x1: nat, p2: Pages, l2: seq<seq<nat>>, x2: nat,
    p3: Pages, l3: seq<seq<nat>>, x3: nat)
    requires x1 in p1 && x2 in p2 && x3 in p3 && Moved(p1, l1, x1, p2, l2, x2) && Moved(p2, l2, x2, p3, l3, x3)
    ensures Moved(p1, l1, x1, p3, l3, x3)
  {
    forall z | Allocated(p1, z) && z !in {x1} ensures z in p3 && p3[z] == p1[z] { assert Allocated(p2, z); }
  }

  // ----- Booting -----

  ghost predicate AllSingle(pages: Pages) { forall x | x in pages :: pages[x].order == 0 && !pages[x].free }

  lemma {:induction false} FreshBlocks(segs: seq<Seg>, pages: Pages)
    requires Framed(segs, pages) && AllSingle(pages)
    ensures Blocks(segs, pages) && Aligned(pages)
  {
    forall x | x in pages ensures BlockOk(segs, pages, x) && Covered(pages, x) && AlignedAt(pages, x) {
      assert FrameOk(segs, pages, x);
      assert Head(pages, x) && InBlock(x, pages[x].order, x);
    }
  }

  lemma {:induction false} Fresh(segs: seq<Seg>, pages: Pages, lists: seq<seq<nat>>)
    requires Framed(segs, pages) && AllSingle(pages) && lists == seq(ORDERS, _ => [])
    ensures Consistent(segs, pages, lists) && Total(lists) == 0 && FreeFrames(pages) == {}
  {
    FreshBlocks(segs, pages);
    forall x ensures !Mergeable(pages, x) {}
    forall y: nat ensures !InFree(pages, y) { assert forall z | z in pages :: !Free(pages, z); }
    if Total(lists) > 0 { TotalPositive(lists); }
  }

  /** The first i segments and the first k pages of the next one have been gone through. */
  ghost predicate Done(segs: seq<Seg>, i: nat, k: nat, y: nat) {
    (exists j :: 0 <= j < i && j < |segs| && InSeg(segs[j], y))
      || (i < |segs| && InSeg(segs[i], y) && y < segs[i].start + k)
  }

  ghost predicate Booted(segs: seq<Seg>, pages: Pages, reserved: set<nat>, i: nat, k: nat) {
    forall y: nat {:trigger BootedAt(segs, pages, reserved, i, k, y)} :: BootedAt(segs, pages, reserved, i, k, y)
  }

  /** A page gone through is free unless reserved; any other is still an allocated block of its own. */
  ghost predicate BootedAt(segs: seq<Seg>, pages: Pages, reserved: set<nat>, i: nat, k: nat, y: nat) {
    && (InFree(pages, y) <==> Done(segs, i, k, y) && y !in reserved)
    && (y in pages && !Done(segs, i, k, y) ==> Allocated(pages, y) && pages[y].order == 0)
  }

  lemma {:induction false} DoneNext(segs: seq<Seg>, pages: Pages, i: nat, k: nat, y: nat)
    requires Framed(segs, pages) && i < |segs| && k < segs[i].size
    ensures Done(segs, i, k + 1, y) <==> Done(segs, i, k, y) || y == segs[i].start + k
    ensures !Done(segs, i, k, segs[i].start + k) && segs[i].start + k in pages
  {
    var x := segs[i].start + k;
    assert InSeg(segs[i], x);
    assert pages[x].seg == i;
  }

  lemma {:induction false} BootReady(segs: seq<Seg>, pages: Pages, reserved: set<nat>, i: nat, k: nat)
    requires Framed(segs, pages) && Booted(segs, pages, reserved, i, k) && i < |segs| && k < segs[i].size
    ensures var x := segs[i].start + k; Allocated(pages, x) && pages[x].order == 0
  {
    DoneNext(segs, pages, i, k, segs[i].start + k);
    assert BootedAt(segs, pages, reserved, i, k, segs[i].start + k);
  }

  ghost predicate Freed(pages: Pages, pages': Pages, reserved: set<nat>, x: nat) {
    && pages'.Keys == pages.Keys
    && if x in reserved then pages' == pages else Gains(pages, pages', x, 0) && Kept(pages, pages', {x})
  }

  lemma {:induction false} BootStep(segs: seq<Seg>, pages: Pages, pages': Pages, reserved: set<nat>, i: nat, k: nat)
    requires Framed(segs, pages) && Booted(segs, pages, reserved, i, k) && i < |segs| && k < segs[i].size
    requires Freed(pages, pages', reserved, segs[i].start + k)
    ensures Booted(segs, pages', reserved, i, k + 1)
  {
    var n := k + 1;
    forall y: nat ensures BootedAt(segs, pages', reserved, i, n, y) {
      assert BootedAt(segs, pages, reserved, i, k, y);
      DoneNext(segs, pages, i, k, y);
      FreedAt(pages, pages', reserved, segs[i].start + k, y);
    }
  }

  lemma {:induction false} FreedAt(pages: Pages, pages': Pages, reserved: set<nat>, x: nat, y: nat)
    requires Freed(pages, pages', reserved, x)
    ensures InFree(pages', y) <==> InFree(pages, y) || (y == x && x !in reserved)
    ensures Allocated(pages, y) && y != x ==> y in pages' && pages'[y] == pages[y]
  {
    assert InBlock(x, 0, y) <==> y == x;
  }

  lemma {:induction false} BootSegment(segs: seq<Seg>, pages: Pages, reserved: set<nat>, i: nat)
    requires i < |segs| && Booted(segs, pages, reserved, i, segs[i].size)
    ensures Booted(segs, pages, reserved, i + 1, 0)
  {
    var n := i + 1;
    forall y: nat ensures BootedAt(segs, pages, reserved, n, 0, y) {
      assert BootedAt(segs, pages, reserved, i, segs[i].size, y);
      if exists j :: 0 <= j < i + 1 && j < |segs| && InSeg(segs[j], y) {
        var j :| 0 <= j < i + 1 && j < |segs| && InSeg(segs[j], y);
        assert j == i || (0 <= j < i && j < |segs| && InSeg(segs[j], y));
      }
      if InSeg(segs[i], y) { assert 0 <= i < i + 1 && i < |segs| && InSeg(segs[i], y); }
    }
  }

  lemma {:induction false} BootDone(segs: seq<Seg>, pages: Pages, reserved: set<nat>)
    requires Framed(segs, pages) && Booted(segs, pages, reserved, |segs|, 0)
    ensures forall y: nat :: InFree(pages, y) <==> y in pages && y !in reserved
  {
    forall y: nat ensures InFree(pages, y) <==> y in pages && y !in reserved {
      assert BootedAt(segs, pages, reserved, |segs|, 0, y);
      if y in pages {
        assert FrameOk(segs, pages, y);
        assert InSeg(segs[pages[y].seg], y);
      }
    }
  }

  lemma {:induction false} BootStart(segs: seq<Seg>, pages: Pages, reserved: set<nat>)
    requires forall x | x in pages :: Allocated(pages, x) && pages[x].order == 0
    ensures Booted(segs, pages, reserved, 0, 0)
  {
    forall y: nat ensures BootedAt(segs, pages, reserved, 0, 0, y) {
      assert forall z | Free(pages, z) :: Allocated(pages, z);
    }
  }

  class Phys {
    const segs: seq<Seg>
    var pages: Pages
    var lists: seq<seq<nat>>

    // The memory pressure counters, in bytes.
    var free: nat
    const total: nat
    const threshold: nat

    ghost predicate Valid()
      reads this
    {
      && Consistent(segs, pages, lists) && Sized(pages, lists)
      && free == PAGE_SZ * Total(lists) && total == PAGE_SZ * |pages.Keys|
    }

    /** Every page starts out as an allocated block of order 0, with nothing free. */
    constructor (segs: seq<Seg>, frames: map<nat, nat>, threshold: nat)
      requires forall x | x in frames :: frames[x] < |segs| && InSeg(segs[frames[x]], x)
      requires forall i, x | 0 <= i < |segs| && InSeg(segs[i], x) :: x in frames && frames[x] == i
      ensures Valid() && free == 0 && this.segs == segs && this.threshold == threshold && pages.Keys == frames.Keys
      ensures forall x | x in pages :: Allocated(pages, x) && pages[x].order == 0
    {
      var start: Pages, empty: seq<seq<nat>> := map x | x in frames :: Page(0, frames[x], false), seq(ORDERS, _ => []);
      assert start.Keys == frames.Keys;
      Fresh(segs, start, empty);
      this.segs := segs;
      this.threshold := threshold;
      pages, lists, free := start, empty, 0;
      total := PAGE_SZ * |frames.Keys|;
    }

    /** vm_physeg_init for all segments: the allocator gets exactly the pages that are not reserved. */
    method FreeUnreserved(reserved: set<nat>)
      requires Valid() && forall x | x in pages :: Allocated(pages, x) && pages[x].order == 0
      modifies this
      ensures Valid() && pages.Keys == old(pages).Keys
      ensures forall y: nat :: InFree(pages, y) <==> y in pages && y !in reserved
    {
      BootStart(segs, pages, reserved);
      for i := 0 to |segs|
        invariant Valid() && pages.Keys == old(pages).Keys && Booted(segs, pages, reserved, i, 0)
      {
        FreeSegment(i, reserved);
      }
      BootDone(segs, pages, reserved);
    }

    /** vm_physeg_init */
    method FreeSegment(i: nat, reserved: set<nat>)
      requires Valid() && i < |segs| && Booted(segs, pages, reserved, i, 0)
      modifies this
      ensures Valid() && pages.Keys == old(pages).Keys && Booted(segs, pages, reserved, i + 1, 0)
    {
      for k := 0 to segs[i].size
        invariant Valid() && pages.Keys == old(pages).Keys && Booted(segs, pages, reserved, i, k)
      {
        FreeNext(i, k, reserved);
      }
      BootSegment(segs, pages, reserved, i);
    }

    method FreeNext(i: nat, k: nat, reserved: set<nat>)
      requires Valid() && i < |segs| && k < segs[i].size && Booted(segs, pages, reserved, i, k)
      modifies this
      ensures Valid() && pages.Keys == old(pages).Keys && Booted(segs, pages, reserved, i, k + 1)
    {
      BootReady(segs, pages, reserved, i, k);
      if segs[i].start + k !in reserved {
        FreePage(segs[i].start + k);
      }
      BootStep(segs, old(pages), pages, reserved, i, k);
    }

    /** vm_page_alloc_order: split the smallest sufficient block down to the order asked for. */
    method AllocOrder(order: nat) returns (r: Outcome)
      requires Valid() && order < ORDERS
      modifies this
      ensures Valid()
      ensures r.MustWait? <==> old(free) < PAGE_SZ * Pow(order) + threshold
      ensures r.NoBlock? <==> !r.MustWait? && forall x | Free(old(pages), x) :: old(pages)[x].order < order
      ensures order == 0 ==> !r.NoBlock?
      ensures !r.Got? ==> pages == old(pages) && lists == old(lists) && free == old(free)
      ensures r.Got? ==>
        Allocated(pages, r.page) && pages[r.page].order == order && free == old(free) - PAGE_SZ * Pow(order)
      ensures r.Got? ==> Gains(pages, old(pages), r.page, order)
      ensures r.Got? ==> Least(old(pages), r.page, order)
      ensures pages.Keys == old(pages).Keys && Kept(old(pages), pages, {})
    {
      r := MustWait;
      if free >= PAGE_SZ * Pow(order) + threshold {
        var i := FindList(order);
        r := NoBlock;
        if i < ORDERS {
          LeastFirst(segs, pages, lists, order, i);
          var x := TakeBlock(i, order);
          free := free - PAGE_SZ * Pow(order);
          r := Got(x);
        }
      }
    }

    /** The search for a list that is not empty. */
    method FindList(order: nat) returns (i: nat)
      requires Consistent(segs, pages, lists) && order < ORDERS
      ensures order <= i <= ORDERS
      ensures i == ORDERS <==> forall x | Free(pages, x) :: pages[x].order < order
      ensures i < ORDERS ==> lists[i] != [] && forall k | order <= k < i :: lists[k] == []
      ensures order == 0 && Total(lists) > 0 ==> i < ORDERS
    {
      NoneLeft(segs, pages, lists, order);
      i := order;
      while i < ORDERS && lists[i] == []
        invariant order <= i <= ORDERS
        invariant forall k | order <= k < i :: lists[k] == []
      {
        i := i + 1;
      }
      if Total(lists) > 0 { TotalPositive(lists); }
    }

    /** vm_freelist_pop, and the change of state after it. */
    method TakeFirst(i: nat) returns (x: nat)
      requires Consistent(segs, pages, lists) && i < ORDERS && lists[i] != []
      modifies this`pages, this`lists
      ensures Consistent(segs, pages, lists) && Allocated(pages, x) && pages[x].order == i
        && pages.Keys == old(pages).Keys && Kept(old(pages), pages, {})
      ensures !Allocated(old(pages), x) && x == old(lists)[i][0]
      ensures Gains(pages, old(pages), x, i)
      ensures Total(lists) + Pow(i) == Total(old(lists))
    {
      x := lists[i][0];
      assert x in lists[i];
      TakeConsistent(segs, pages, lists, x);
      TakeGains(segs, pages, x);
      lists := lists[i := lists[i][1..]];
      pages := Marked(pages, x, false);
    }

    method TakeBlock(i: nat, order: nat) returns (x: nat)
      requires Consistent(segs, pages, lists) && Sized(pages, lists) && order <= i < ORDERS && lists[i] != []
      modifies this`pages, this`lists
      ensures Consistent(segs, pages, lists) && Sized(pages, lists) && Total(old(lists)) == Total(lists) + Pow(order)
      ensures Allocated(pages, x) && pages[x].order == order && pages.Keys == old(pages).Keys
        && Kept(old(pages), pages, {})
      ensures Gains(pages, old(pages), x, order) && x == old(lists)[i][0]
    {
      x := TakeFirst(i);
      ghost var taken := pages;
      SplitTo(x, order);
      MovedGains(segs, taken, x, pages, x, old(pages));
      GainsSize(segs, pages, old(pages), x, order);
    }

    /** The splitting loop. */
    method SplitTo(x: nat, order: nat)
      requires Consistent(segs, pages, lists) && Allocated(pages, x) && order <= pages[x].order
      modifies this`pages, this`lists
      ensures Consistent(segs, pages, lists) && Allocated(pages, x) && pages[x].order == order
      ensures Moved(old(pages), old(lists), x, pages, lists, x)
    {
      while pages[x].order > order
        invariant Consistent(segs, pages, lists) && Allocated(pages, x) && pages[x].order >= order
        invariant Moved(old(pages), old(lists), x, pages, lists, x)
        decreases pages[x].order
      {
        ghost var pages0, lists0 := pages, lists;
        SplitOnce(x);
        MovedTwice(old(pages), old(lists), x, pages0, lists0, x, pages, lists, x);
      }
    }

    method SplitOnce(x: nat)
      requires Consistent(segs, pages, lists) && Allocated(pages, x) && pages[x].order > 0
      modifies this`pages, this`lists
      ensures Consistent(segs, pages, lists) && Allocated(pages, x) && pages[x].order == old(pages)[x].order - 1
      ensures Moved(old(pages), old(lists), x, pages, lists, x)
    {
      SplitStep(segs, pages, lists, x);
      SplitMoved(segs, pages, lists, x);
      var k := pages[x].order - 1;
      var y := x + Pow(k);
      pages := Halved(pages, x);
      lists := Added(lists, k, y);
      pages := Marked(pages, y, true);
    }

    /** vm_page_free: merge with free buddies as far as possible, then put the block on its list. */
    method FreePage(page: nat)
      requires Valid() && Allocated(pages, page)
      modifies this
      ensures Valid() && free == old(free) + PAGE_SZ * Pow(old(pages)[page].order) <= total
      ensures Gains(old(pages), pages, page, old(pages)[page].order)
      ensures pages.Keys == old(pages).Keys && Kept(old(pages), pages, {page})
    {
      RoomToFree(segs, pages, lists, page);
      free := free + PAGE_SZ * Pow(pages[page].order);
      MergeBack(page);
    }

    method MergeBack(page: nat)
      requires Consistent(segs, pages, lists) && Sized(pages, lists) && Allocated(pages, page)
      modifies this`pages, this`lists
      ensures Consistent(segs, pages, lists) && Sized(pages, lists)
      ensures Total(lists) == Total(old(lists)) + Pow(old(pages)[page].order)
      ensures Gains(old(pages), pages, page, old(pages)[page].order)
      ensures pages.Keys == old(pages).Keys && Kept(old(pages), pages, {page})
    {
      var x := MergeUp(page);
      ghost var merged := pages;
      PutBack(x);
      MovedGains(segs, merged, x, old(pages), page, pages);
      GainsSize(segs, old(pages), pages, page, old(pages)[page].order);
    }

    /** The merging loop. */
    method MergeUp(page: nat) returns (x: nat)
      requires Consistent(segs, pages, lists) && Allocated(pages, page)
      modifies this`pages, this`lists
      ensures Consistent(segs, pages, lists) && Allocated(pages, x) && !Mergeable(Marked(pages, x, true), x)
      ensures Moved(old(pages), old(lists), page, pages, lists, x)
    {
      x := page;
      while pages[x].order < ORDERS - 1 && BuddyFree(x)
        invariant Consistent(segs, pages, lists) && Allocated(pages, x)
        invariant Moved(old(pages), old(lists), page, pages, lists, x)
        decreases ORDERS - pages[x].order
      {
        ghost var pages0, lists0, x0 := pages, lists, x;
        x := MergeOnce(x);
        MovedTwice(old(pages), old(lists), page, pages0, lists0, x0, pages, lists, x);
      }
      assert AlignedAt(pages, x);
      BuddyAligned(x, pages[x].order);
    }

    method MergeOnce(x: nat) returns (g: nat)
      requires Consistent(segs, pages, lists) && Allocated(pages, x) && pages[x].order < ORDERS - 1 && BuddyFree(x)
      modifies this`pages, this`lists
      ensures Consistent(segs, pages, lists) && Allocated(pages, g) && pages[g].order == old(pages)[x].order + 1
      ensures Moved(old(pages), old(lists), x, pages, lists, g)
    {
      MergeReady(segs, pages, lists, x);
      MergeStep(segs, pages, lists, x);
      MergeMoved(segs, pages, lists, x);
      g := Merge(x);
    }

    /** vm_freelist_add */
    method PutBack(x: nat)
      requires Consistent(segs, pages, lists) && Allocated(pages, x) && !Mergeable(Marked(pages, x, true), x)
      modifies this`pages, this`lists
      ensures Consistent(segs, pages, lists) && Gains(old(pages), pages, x, old(pages)[x].order)
      ensures Total(lists) == old(Total(lists) + Pow(pages[x].order)) && pages.Keys == old(pages).Keys
        && Kept(old(pages), pages, {x})
    {
      PutConsistent(segs, pages, lists, x);
      PutGains(segs, pages, x);
      lists := Added(lists, pages[x].order, x);
      pages := Marked(pages, x, true);
    }

    /** Whether the buddy exists in the same segment and is a free block of the same order. */
    predicate BuddyFree(x: nat)
      requires x in pages
      reads this
    {
      var b := Buddy(x, pages[x].order);
      b in pages && pages[b].seg == pages[x].seg && pages[b].order == pages[x].order && pages[b].free
    }

    /** One round of the merging loop. */
    method Merge(x: nat) returns (g: nat)
      requires |lists| == ORDERS && Allocated(pages, x) && pages[x].order < ORDERS && BuddyFree(x)
        && Buddy(x, pages[x].order) != x
      requires Lower(x, pages[x].order) in pages
      modifies this`pages, this`lists
      ensures
        var k := old(pages)[x].order;
        var b := Buddy(x, k);
        && g == Lower(x, k) && lists == Removed(old(lists), k, b)
        && pages == Joined(Marked(old(pages), b, false), x)
    {
      var k := pages[x].order;
      var b: nat := Buddy(x, k);
      lists := Removed(lists, k, b);
      pages := Marked(pages, b, false);
      pages := pages[b := pages[b].(order := NONE)];
      pages := pages[x := pages[x].(order := NONE)];
      g := Lower(x, k);
      pages := pages[g := pages[g].(order := k + 1)];
    }
  }
}
