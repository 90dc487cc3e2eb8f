/** Reserving and handing out physical memory before the buddy allocator runs (vm/phys.c). */
module PhysBoot {
  import opened BuddyModel
  import opened Lists

  const SLOTS: nat := 64

  datatype Rsv = Rsv(addr: nat, size: nat)

  predicate Has(r: Rsv, a: nat) { r.addr <= a < r.addr + r.size }

  ghost predicate Held(rsv: seq<Rsv>, a: nat) { exists i :: 0 <= i < |rsv| && Has(rsv[i], a) }

  /** vm_seg_overlap */
  predicate Overlap(a1: nat, s1: nat, a2: nat, s2: nat) { !(a2 >= a1 + s1 || a1 >= a2 + s2) }

  lemma {:induction false} OverlapShares(a1: nat, s1: nat, a2: nat, s2: nat)
    requires s1 > 0 && s2 > 0
    ensures Overlap(a1, s1, a2, s2) <==> exists a :: Has(Rsv(a1, s1), a) && Has(Rsv(a2, s2), a)
  {
    if Overlap(a1, s1, a2, s2) {
      var a := if a1 < a2 then a2 else a1;
      assert Has(Rsv(a1, s1), a) && Has(Rsv(a2, s2), a);
    }
  }

  /** vm_phys_reserve: extend a neighbour, find the range already covered, or take a new slot. */
  method Reserve(rsv: seq<Rsv>, addr: nat, size: nat) returns (ok: bool, out: seq<Rsv>)
    ensures !ok ==> out == rsv && |rsv| >= SLOTS
    ensures ok ==> forall a: nat :: Held(out, a) <==> Held(rsv, a) || Has(Rsv(addr, size), a)
    ensures |rsv| <= SLOTS ==> |out| <= SLOTS
  {
    var i := 0;
    while i < |rsv|
      invariant 0 <= i <= |rsv|
    {
      var r := rsv[i];
      if r.addr + r.size == addr {
        out := rsv[i := Rsv(r.addr, r.size + size)];
        Replaced(rsv, i, out[i], Rsv(addr, size));
        return true, out;
      } else if r.addr == addr + size {
        out := rsv[i := Rsv(addr, r.size + size)];
        Replaced(rsv, i, out[i], Rsv(addr, size));
        return true, out;
      } else if addr >= r.addr && addr + size <= r.addr + r.size {
        forall a: nat | Has(Rsv(addr, size), a) ensures Held(rsv, a) { assert Has(rsv[i], a); }
        return true, rsv;
      }
      i := i + 1;
    }
    if |rsv| >= SLOTS {
      return false, rsv;
    }
    out := rsv + [Rsv(addr, size)];
    forall a: nat ensures Held(out, a) <==> Held(rsv, a) || Has(Rsv(addr, size), a) {
      if Held(rsv, a) {
        var j :| 0 <= j < |rsv| && Has(rsv[j], a);
        assert Has(out[j], a);
      }
      if Has(Rsv(addr, size), a) { assert Has(out[|rsv|], a); }
    }
    return true, out;
  }

  lemma {:induction false} Replaced(rsv: seq<Rsv>, i: nat, r: Rsv, q: Rsv)
    requires i < |rsv| && forall a: nat :: Has(r, a) <==> Has(rsv[i], a) || Has(q, a)
    ensures forall a: nat :: Held(rsv[i := r], a) <==> Held(rsv, a) || Has(q, a)
  {
    var out := rsv[i := r];
    forall a: nat ensures Held(out, a) <==> Held(rsv, a) || Has(q, a) {
      if Held(rsv, a) {
        var j :| 0 <= j < |rsv| && Has(rsv[j], a);
        assert Has(out[j], a);
      }
      if Has(q, a) { assert Has(out[i], a); }
      if Held(out, a) {
        var j :| 0 <= j < |out| && Has(out[j], a);
        assert j != i ==> Has(rsv[j], a);
        assert j == i ==> Has(rsv[i], a) || Has(q, a);
      }
    }
  }

  /** vm_page_reserved: the first byte of the page decides. */
  method PageReserved(rsv: seq<Rsv>, frame: nat) returns (reserved: bool)
    ensures reserved == Held(rsv, PAGE_SZ * frame)
  {
    for i := 0 to |rsv|
      invariant forall j | 0 <= j < i :: !Has(rsv[j], PAGE_SZ * frame)
    {
      if PAGE_SZ * frame >= rsv[i].addr && PAGE_SZ * frame < rsv[i].addr + rsv[i].size {
        assert Has(rsv[i], PAGE_SZ * frame);
        return true;
      }
    }
    return false;
  }

  /** A page that no reserved byte may be handed out with. */
  ghost predicate Touched(rsv: seq<Rsv>, frame: nat) {
    exists a: nat :: Held(rsv, a) && a / PAGE_SZ == frame
  }

  /** With every reservation starting on a page boundary, exactly the touched pages are kept back. */
  lemma {:induction false} AlignedKeepsAll(rsv: seq<Rsv>, frame: nat)
    requires forall i | 0 <= i < |rsv| :: rsv[i].addr % PAGE_SZ == 0
    ensures Touched(rsv, frame) <==> Held(rsv, PAGE_SZ * frame)
  {
    if Touched(rsv, frame) {
      var a: nat :| Held(rsv, a) && a / PAGE_SZ == frame;
      var i :| 0 <= i < |rsv| && Has(rsv[i], a);
      assert Has(rsv[i], PAGE_SZ * frame);
    }
    if Held(rsv, PAGE_SZ * frame) { assert (PAGE_SZ * frame) / PAGE_SZ == frame; }
  }

  /** Every page with a reserved byte is kept back. */
  ghost predicate KeepsAll(rsv: seq<Rsv>) { forall frame: nat | Touched(rsv, frame) :: Held(rsv, PAGE_SZ * frame) }

  /** The first byte of the page in which the reservation starts is reserved, by it or by another. */
  ghost predicate StartKept(rsv: seq<Rsv>, r: Rsv) { r.size > 0 ==> Held(rsv, PAGE_SZ * (r.addr / PAGE_SZ)) }

  /** Exactly when vm_page_reserved protects what was reserved. */
  lemma {:induction false} KeepsAllExactly(rsv: seq<Rsv>)
    ensures KeepsAll(rsv) <==> forall i | 0 <= i < |rsv| :: StartKept(rsv, rsv[i])
  {
    forall i | 0 <= i < |rsv| && rsv[i].size > 0 ensures Touched(rsv, rsv[i].addr / PAGE_SZ) {
      assert Has(rsv[i], rsv[i].addr) && Held(rsv, rsv[i].addr);
    }
    if forall i | 0 <= i < |rsv| :: StartKept(rsv, rsv[i]) {
      forall frame: nat | Touched(rsv, frame) ensures Held(rsv, PAGE_SZ * frame) { StartsKeepPage(rsv, frame); }
    }
  }

  lemma {:induction false} StartsKeepPage(rsv: seq<Rsv>, frame: nat)
    requires Touched(rsv, frame) && forall i | 0 <= i < |rsv| :: StartKept(rsv, rsv[i])
    ensures Held(rsv, PAGE_SZ * frame)
  {
    var a: nat :| Held(rsv, a) && a / PAGE_SZ == frame;
    var i :| 0 <= i < |rsv| && Has(rsv[i], a);
    assert StartKept(rsv, rsv[i]);
    if rsv[i].addr <= PAGE_SZ * frame {
      assert Has(rsv[i], PAGE_SZ * frame);
    } else {
      assert rsv[i].addr / PAGE_SZ == frame;
    }
  }

  /** Eight bytes in the middle of a page are reserved and the page is handed out all the same. */
  method ReservedPageLost() returns (rsv: seq<Rsv>, reserved: bool)
    ensures Touched(rsv, 3) && !reserved && !KeepsAll(rsv)
  {
    var ok;
    ok, rsv := Reserve([], 3 * PAGE_SZ + 16, 8);
    reserved := PageReserved(rsv, 3);
    assert Has(Rsv(3 * PAGE_SZ + 16, 8), 3 * PAGE_SZ + 16);
    assert Held(rsv, 3 * PAGE_SZ + 16) && (3 * PAGE_SZ + 16) / PAGE_SZ == 3;
  }

  ghost predicate FreeAt(rsv: seq<Rsv>, a: nat, size: nat) {
    forall i | 0 <= i < |rsv| :: !Overlap(a, size, rsv[i].addr, rsv[i].size)
  }

  /**
   The search of vm_phys_early_alloc in one segment: the lowest address at which the region fits
   between the reservations, or none if there is none.
   */
  method EarlySearch(rsv: seq<Rsv>, start: nat, end: nat, size: nat) returns (ok: bool, phys: nat)
    requires size > 0
    ensures ok ==> start <= phys && phys + size <= end && FreeAt(rsv, phys, size)
    ensures forall a | start <= a && a + size <= end && FreeAt(rsv, a, size) :: ok && phys <= a
  {
    phys := start;
    while phys + size <= end
      invariant start <= phys
      invariant forall a | start <= a < phys :: !FreeAt(rsv, a, size)
      decreases end - phys
    {
      var j := 0;
      while j < |rsv| && !Overlap(phys, size, rsv[j].addr, rsv[j].size)
        invariant 0 <= j <= |rsv|
        invariant forall i | 0 <= i < j :: !Overlap(phys, size, rsv[i].addr, rsv[i].size)
      {
        j := j + 1;
      }
      if j == |rsv| {
        return true, phys;
      }
      forall a | phys <= a < rsv[j].addr + rsv[j].size ensures !FreeAt(rsv, a, size) {
        assert Overlap(a, size, rsv[j].addr, rsv[j].size);
      }
      phys := rsv[j].addr + rsv[j].size;
    }
    ok := false;
  }

  /** The region fits at a in segment i, which has no page structures yet. */
  ghost predicate Place(rsv: seq<Rsv>, segs: seq<Seg>, ready: seq<bool>, size: nat, i: nat, a: nat)
    requires |ready| == |segs|
  {
    && i < |segs| && !ready[i] && FreeAt(rsv, a, size)
    && PAGE_SZ * segs[i].start <= a && a + size <= PAGE_SZ * (segs[i].start + segs[i].size)
  }

  /**
   vm_phys_early_alloc without the buddy allocator: the lowest place in the first segment that has
   one, and from then on it is reserved. Failing to find one, or to reserve it, are the panics.
   */
  method EarlyAlloc(rsv: seq<Rsv>, segs: seq<Seg>, ready: seq<bool>, size: nat)
    returns (phys: Option<nat>, ok: bool, out: seq<Rsv>)
    requires |ready| == |segs| && size > 0
    ensures phys.None? <==> forall i: nat, a: nat :: !Place(rsv, segs, ready, size, i, a)
    ensures phys.Some? ==> exists i: nat :: Place(rsv, segs, ready, size, i, phys.value)
                                            && forall j: nat, a: nat | Place(rsv, segs, ready, size, j, a) ::
                                                 i < j || (i == j && phys.value <= a)
    ensures ok ==> phys.Some? && forall a: nat :: Held(out, a) <==> Held(rsv, a) || Has(Rsv(phys.value, size), a)
    ensures !ok ==> out == rsv && (phys.None? || |rsv| >= SLOTS)
  {
    ok, out, phys := false, rsv, None;
    for i := 0 to |segs|
      invariant forall j: nat, a: nat | j < i :: !Place(rsv, segs, ready, size, j, a)
    {
      if !ready[i] {
        var found, at := EarlySearch(rsv, PAGE_SZ * segs[i].start, PAGE_SZ * (segs[i].start + segs[i].size), size);
        if found {
          assert Place(rsv, segs, ready, size, i, at);
          phys := Some(at);
          ok, out := Reserve(rsv, at, size);
          return;
        }
      }
    }
  }
}
