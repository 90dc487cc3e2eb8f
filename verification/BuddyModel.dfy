/** The buddy allocator's blocks (vm/phys.c): pages, free lists, and the steps that split and join blocks. */
module BuddyModel {
  import opened Arith

  const ORDERS: nat := 11
  const NONE: nat := 255
  const PAGE_SZ: nat := 4096

  datatype Seg = Seg(start: nat, size: nat)

  predicate InSeg(s: Seg, x: nat) { s.start <= x < s.start + s.size }

  /** A page frame: the order of the block that starts here or NONE, its segment, and VM_PG_FREE. */
  datatype Page = Page(order: nat, seg: nat, free: bool)

  type Pages = map<nat, Page>

  predicate Head(pages: Pages, x: nat) { x in pages && pages[x].order != NONE }

  predicate Free(pages: Pages, x: nat) { x in pages && pages[x].free }

  predicate Allocated(pages: Pages, x: nat) { Head(pages, x) && !pages[x].free }

  predicate InBlock(x: nat, k: nat, y: nat) { x <= y < x + Pow(k) }

  // ----- Geometry -----

  /** The frames are those of the segments. */
  ghost predicate Framed(segs: seq<Seg>, pages: Pages) {
    && (forall x {:trigger FrameOk(segs, pages, x)} | x in pages :: FrameOk(segs, pages, x))
    && (forall i, x | 0 <= i < |segs| && InSeg(segs[i], x) :: x in pages && pages[x].seg == i)
  }

  predicate FrameOk(segs: seq<Seg>, pages: Pages, x: nat)
    requires x in pages
  {
    pages[x].seg < |segs| && InSeg(segs[pages[x].seg], x)
  }

  /** A block lies in one segment and its other frames start no block. */
  ghost predicate BlockOk(segs: seq<Seg>, pages: Pages, x: nat)
    requires x in pages
  {
    var k := pages[x].order;
    && k < ORDERS && pages[x].seg < |segs|
    && x + Pow(k) <= segs[pages[x].seg].start + segs[pages[x].seg].size
    && forall y | x < y < x + Pow(k) :: y in pages && pages[y].order == NONE && pages[y].seg == pages[x].seg
  }

  ghost predicate Covered(pages: Pages, y: nat) {
    exists x :: Head(pages, x) && InBlock(x, pages[x].order, y)
  }

  ghost predicate Blocks(segs: seq<Seg>, pages: Pages) {
    && (forall x {:trigger BlockOk(segs, pages, x)} | Head(pages, x) :: BlockOk(segs, pages, x))
    && (forall x {:trigger Covered(pages, x)} | x in pages :: Covered(pages, x))
    && (forall x {:trigger Free(pages, x)} | Free(pages, x) :: Head(pages, x))
  }

  /** A block starts at a multiple of its length. */
  ghost predicate Aligned(pages: Pages) {
    forall x {:trigger AlignedAt(pages, x)} | Head(pages, x) :: AlignedAt(pages, x)
  }

  predicate AlignedAt(pages: Pages, x: nat)
    requires x in pages
  {
    Even(x, pages[x].order)
  }

  /** Blocks tile the frames: two blocks that share a frame are the same. */
  lemma {:induction false} BlocksDisjoint(segs: seq<Seg>, pages: Pages, x: nat, z: nat, y: nat)
    requires Blocks(segs, pages) && Head(pages, x) && Head(pages, z)
    requires InBlock(x, pages[x].order, y) && InBlock(z, pages[z].order, y)
    ensures x == z
  {
    assert BlockOk(segs, pages, x) && BlockOk(segs, pages, z);
  }

  // ----- Buddies -----

  /** The frame number with bit k flipped: addr ^ size. */
  function Buddy(x: nat, k: nat): nat
    decreases k
  {
    if k == 0 then (if x % 2 == 0 then x + 1 else x - 1) else 2 * Buddy(x / 2, k - 1) + x % 2
  }

  /** The frame number with its lowest n bits cleared: addr & ~((1 << n) - 1). */
  function Clear(x: nat, n: nat): nat
    decreases n
  {
    if n == 0 then x else 2 * Clear(x / 2, n - 1)
  }

  /** The lower of two buddies, computed from the buddy as the merging loop does. */
  function Lower(x: nat, k: nat): nat { Clear(Buddy(x, k), k + 1) }

  /** The lowest k bits are zero. */
  predicate Even(x: nat, k: nat)
    decreases k
  {
    k == 0 || (x % 2 == 0 && Even(x / 2, k - 1))
  }

  /** That is, the number is a multiple of 2^k. */
  lemma {:induction false} EvenIsMultiple(x: nat, k: nat)
    ensures Even(x, k) <==> x % Pow(k) == 0
    decreases k
  {
    if k > 0 {
      var h, p := x / 2, Pow(k - 1);
      EvenIsMultiple(h, k - 1);
      var q, r := h / p, h % p;
      assert h == q * p + r;
      assert x == q * (2 * p) + (2 * r + x % 2);
      DivUnique(x, 2 * p, q, 2 * r + x % 2);
    }
  }

  /** Both buddies are aligned, and the lower one is aligned for the joined block. */
  lemma {:induction false} BuddyAligned(x: nat, k: nat)
    requires Even(x, k)
    ensures Even(Buddy(x, k), k) && Buddy(Buddy(x, k), k) == x && Lower(Buddy(x, k), k) == Lower(x, k)
    ensures Even(Lower(x, k), k + 1)
    ensures (x == Lower(x, k) && Buddy(x, k) == Lower(x, k) + Pow(k))
      || (Buddy(x, k) == Lower(x, k) && x == Lower(x, k) + Pow(k))
    decreases k
  {
    if k > 0 {
      BuddyAligned(x / 2, k - 1);
      assert Buddy(x, k) / 2 == Buddy(x / 2, k - 1);
    }
  }

  /** Halving an aligned block gives two aligned buddies. */
  lemma {:induction false} HalfAligned(x: nat, k: nat)
    requires Even(x, k + 1)
    ensures Even(x, k) && Even(x + Pow(k), k) && Buddy(x + Pow(k), k) == x
    decreases k
  {
    if k > 0 {
      HalfAligned(x / 2, k - 1);
      assert (x + Pow(k)) / 2 == x / 2 + Pow(k - 1);
    }
  }

  ghost predicate SameFrames(pages: Pages, pages': Pages) {
    pages'.Keys == pages.Keys && forall x | x in pages :: pages'[x].seg == pages[x].seg
  }

  lemma {:induction false} Reframed(segs: seq<Seg>, pages: Pages, pages': Pages)
    requires Framed(segs, pages) && SameFrames(pages, pages')
    ensures Framed(segs, pages')
  {
    forall x | x in pages' ensures FrameOk(segs, pages', x) { assert FrameOk(segs, pages, x); }
  }

  // ----- Halving and joining -----

  /** One round of the splitting loop: the upper half becomes a block of its own. */
  function Halved(pages: Pages, x: nat): Pages
    requires Head(pages, x) && pages[x].order > 0 && x + Pow(pages[x].order - 1) in pages
  {
    var k := pages[x].order - 1;
    pages[x := pages[x].(order := k)][x + Pow(k) := pages[x + Pow(k)].(order := k)]
  }

  /** One round of the merging loop: x and its buddy become one block. */
  function Joined(pages: Pages, x: nat): Pages
    requires x in pages && Buddy(x, pages[x].order) in pages && Lower(x, pages[x].order) in pages
  {
    var k := pages[x].order;
    var b, g := Buddy(x, k), Lower(x, k);
    pages[b := pages[b].(order := NONE)][x := pages[x].(order := NONE)][g := pages[g].(order := k + 1)]
  }

  lemma {:induction false} HalveReady(segs: seq<Seg>, pages: Pages, x: nat)
    requires Blocks(segs, pages) && Allocated(pages, x) && pages[x].order > 0
    ensures
      var y := x + Pow(pages[x].order - 1);
      x < y < x + Pow(pages[x].order) && y in pages && pages[y].order == NONE && !pages[y].free
        && pages[y].seg == pages[x].seg
  {
    assert BlockOk(segs, pages, x);
    assert Free(pages, x + Pow(pages[x].order - 1)) ==> Head(pages, x + Pow(pages[x].order - 1));
  }

  lemma {:induction false} HalveHeads(segs: seq<Seg>, pages: Pages, x: nat, z: nat)
    requires Blocks(segs, pages) && Allocated(pages, x) && pages[x].order > 0 && x + Pow(pages[x].order - 1) in pages
    requires Head(Halved(pages, x), z)
    ensures BlockOk(segs, Halved(pages, x), z)
  {
    HalveReady(segs, pages, x);
    var k: nat := pages[x].order - 1;
    var y := x + Pow(k);
    assert BlockOk(segs, pages, x);
    if z != x && z != y {
      assert BlockOk(segs, pages, z);
      if InBlock(z, pages[z].order, y) { BlocksDisjoint(segs, pages, x, z, y); }
      if InBlock(z, pages[z].order, x) { BlocksDisjoint(segs, pages, x, z, x); }
    }
  }

  lemma {:induction false} HalveCovers(segs: seq<Seg>, pages: Pages, x: nat, z: nat)
    requires Blocks(segs, pages) && Allocated(pages, x) && pages[x].order > 0 && x + Pow(pages[x].order - 1) in pages
    requires z in pages
    ensures Covered(Halved(pages, x), z)
  {
    HalveReady(segs, pages, x);
    var k := pages[x].order - 1;
    var y, pages' := x + Pow(k), Halved(pages, x);
    assert Covered(pages, z) && BlockOk(segs, pages, x);
    var h :| Head(pages, h) && InBlock(h, pages[h].order, z);
    if h == x {
      if z < y { assert Head(pages', x) && InBlock(x, k, z); } else { assert Head(pages', y) && InBlock(y, k, z); }
    } else {
      assert Head(pages', h) && InBlock(h, pages'[h].order, z);
    }
  }

  lemma {:induction false} HalveBlocks(segs: seq<Seg>, pages: Pages, x: nat)
    requires Blocks(segs, pages) && Allocated(pages, x) && pages[x].order > 0 && x + Pow(pages[x].order - 1) in pages
    ensures Blocks(segs, Halved(pages, x))
  {
    HalveReady(segs, pages, x);
    assert BlockOk(segs, pages, x);
    forall z | Head(Halved(pages, x), z) ensures BlockOk(segs, Halved(pages, x), z) { HalveHeads(segs, pages, x, z); }
    forall z | Free(Halved(pages, x), z) ensures Head(Halved(pages, x), z) { assert Free(pages, z); }
    forall z | z in Halved(pages, x) ensures Covered(Halved(pages, x), z) { HalveCovers(segs, pages, x, z); }
  }

  ghost predicate CanJoin(segs: seq<Seg>, pages: Pages, x: nat) {
    && Allocated(pages, x) && pages[x].order < ORDERS - 1
    && Buddy(x, pages[x].order) in pages && pages[Buddy(x, pages[x].order)].seg == pages[x].seg
    && pages[Buddy(x, pages[x].order)].order == pages[x].order && !pages[Buddy(x, pages[x].order)].free
  }

  ghost predicate Joinable(segs: seq<Seg>, pages: Pages, x: nat) {
    CanJoin(segs, pages, x) && AlignedAt(pages, x) && Lower(x, pages[x].order) in pages
  }

  lemma {:induction false} JoinReady(segs: seq<Seg>, pages: Pages, x: nat)
    requires CanJoin(segs, pages, x) && AlignedAt(pages, x)
    ensures
      var k := pages[x].order;
      var b, g := Buddy(x, k), Lower(x, k);
      && g in pages && pages[g].seg == pages[x].seg && pages[g].order == k && x != b
      && Even(g, k + 1) && ((x == g && b == g + Pow(k)) || (b == g && x == g + Pow(k)))
  {
    BuddyAligned(x, pages[x].order);
  }

  /** The block of order k at g takes in the one after it. */
  function Fused(pages: Pages, g: nat, k: nat): Pages
    requires g in pages && g + Pow(k) in pages
  {
    pages[g + Pow(k) := pages[g + Pow(k)].(order := NONE)][g := pages[g].(order := k + 1)]
  }

  ghost predicate Fusable(segs: seq<Seg>, pages: Pages, g: nat, k: nat) {
    && Allocated(pages, g) && pages[g].order == k && k < ORDERS - 1
    && Allocated(pages, g + Pow(k)) && pages[g + Pow(k)].order == k && pages[g + Pow(k)].seg == pages[g].seg
  }

  lemma {:induction false} JoinFused(segs: seq<Seg>, pages: Pages, x: nat)
    requires Joinable(segs, pages, x)
    ensures Fusable(segs, pages, Lower(x, pages[x].order), pages[x].order)
    ensures Joined(pages, x) == Fused(pages, Lower(x, pages[x].order), pages[x].order)
  {
    JoinReady(segs, pages, x);
  }

  lemma {:induction false} FuseHeads(segs: seq<Seg>, pages: Pages, g: nat, k: nat, z: nat)
    requires Blocks(segs, pages) && Fusable(segs, pages, g, k) && Head(Fused(pages, g, k), z)
    ensures BlockOk(segs, Fused(pages, g, k), z)
  {
    assert BlockOk(segs, pages, g) && BlockOk(segs, pages, g + Pow(k));
    if z != g {
      assert BlockOk(segs, pages, z);
      if InBlock(z, pages[z].order, g) { BlocksDisjoint(segs, pages, g, z, g); }
    }
  }

  lemma {:induction false} FuseCovers(segs: seq<Seg>, pages: Pages, g: nat, k: nat, z: nat)
    requires Blocks(segs, pages) && Fusable(segs, pages, g, k) && z in pages
    ensures Covered(Fused(pages, g, k), z)
  {
    var pages' := Fused(pages, g, k);
    assert Covered(pages, z);
    var a :| Head(pages, a) && InBlock(a, pages[a].order, z);
    if a == g || a == g + Pow(k) {
      assert Head(pages', g) && InBlock(g, k + 1, z);
    } else {
      assert Head(pages', a) && InBlock(a, pages'[a].order, z);
    }
  }

  lemma {:induction false} JoinBlocks(segs: seq<Seg>, pages: Pages, x: nat)
    requires Blocks(segs, pages) && Joinable(segs, pages, x)
    ensures Blocks(segs, Joined(pages, x))
  {
    JoinFused(segs, pages, x);
    FuseBlocks(segs, pages, Lower(x, pages[x].order), pages[x].order);
  }

  lemma {:induction false} FuseBlocks(segs: seq<Seg>, pages: Pages, g: nat, k: nat)
    requires Blocks(segs, pages) && Fusable(segs, pages, g, k)
    ensures Blocks(segs, Fused(pages, g, k))
  {
    var pages' := Fused(pages, g, k);
    forall z | Head(pages', z) ensures BlockOk(segs, pages', z) { FuseHeads(segs, pages, g, k, z); }
    forall z | Free(pages', z) ensures Head(pages', z) { assert Free(pages, z); }
    forall z | z in pages' ensures Covered(pages', z) { FuseCovers(segs, pages, g, k, z); }
  }

  lemma {:induction false} HalveAligned(segs: seq<Seg>, pages: Pages, x: nat)
    requires Aligned(pages) && Allocated(pages, x) && pages[x].order > 0 && x + Pow(pages[x].order - 1) in pages
    ensures Aligned(Halved(pages, x))
  {
    assert AlignedAt(pages, x);
    HalfAligned(x, pages[x].order - 1);
    forall z | Head(Halved(pages, x), z) ensures AlignedAt(Halved(pages, x), z) {
      if z != x && z != x + Pow(pages[x].order - 1) { assert AlignedAt(pages, z); }
    }
  }

  lemma {:induction false} JoinAligned(segs: seq<Seg>, pages: Pages, x: nat)
    requires Aligned(pages) && Joinable(segs, pages, x)
    ensures Aligned(Joined(pages, x))
  {
    JoinReady(segs, pages, x);
    forall z | Head(Joined(pages, x), z) ensures AlignedAt(Joined(pages, x), z) {
      if z != Lower(x, pages[x].order) { assert AlignedAt(pages, z); }
    }
  }

  // ----- Maximal merging -----

  /** A free block whose buddy is also free and of the same order. */
  predicate Mergeable(pages: Pages, x: nat) {
    && Free(pages, x) && pages[x].order < ORDERS - 1
    && Buddy(x, pages[x].order) in pages
    && var b := Buddy(x, pages[x].order);
       pages[b].free && pages[b].order == pages[x].order && pages[b].seg == pages[x].seg
  }

  ghost predicate Merged(pages: Pages) { forall x {:trigger Mergeable(pages, x)} :: !Mergeable(pages, x) }

  lemma {:induction false} HalveMerged(segs: seq<Seg>, pages: Pages, x: nat)
    requires Blocks(segs, pages) && Merged(pages) && Allocated(pages, x) && pages[x].order > 0
      && x + Pow(pages[x].order - 1) in pages
    ensures Merged(Halved(pages, x))
  {
    HalveReady(segs, pages, x);
    forall z ensures !Mergeable(Halved(pages, x), z) { assert !Mergeable(pages, z); }
  }

  lemma {:induction false} JoinMerged(segs: seq<Seg>, pages: Pages, x: nat)
    requires Blocks(segs, pages) && Merged(pages) && Joinable(segs, pages, x)
    ensures Merged(Joined(pages, x))
  {
    JoinReady(segs, pages, x);
    forall z ensures !Mergeable(Joined(pages, x), z) { assert !Mergeable(pages, z); }
  }
}
