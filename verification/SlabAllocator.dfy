/** The slab allocator as it runs. */
module SlabAllocator {
  import opened Arith
  import opened Lists
  import opened SlabModel

  type Slabs = map<Sid, Slab>
  type Chains = map<Sid, seq<nat>>

  ghost predicate Intact(mem: Memory, slabs: Slabs, chains: Chains, size: nat, align: nat)
    requires size > 0 && align > 0
  {
    && chains.Keys == slabs.Keys
    && forall s {:trigger SlabOk(mem, slabs[s], chains[s], size, align)} | s in slabs ::
      SlabOk(mem, slabs[s], chains[s], size, align)
  }

  /** The slabs on the list are those with free objects. */
  ghost predicate Offered(slabs: Slabs, list: seq<Sid>) {
    NoDup(list) && forall s :: s in list <==> s in slabs && slabs[s].nfree > 0
  }

  /** An object's page names its slab. */
  ghost predicate Tagged(slabs: Slabs, pages: map<nat, Sid>, size: nat, align: nat)
    requires size > 0 && align > 0
  {
    forall s, o {:trigger TaggedAt(pages, s, o)} | s in slabs && o in ObjsOf(slabs[s], size, align) ::
      TaggedAt(pages, s, o)
  }

  predicate TaggedAt(pages: map<nat, Sid>, s: Sid, o: nat) { o / PAGE in pages && pages[o / PAGE] == s }

  lemma {:induction false} OneOwner(slabs: Slabs, pages: map<nat, Sid>, size: nat, align: nat, s: Sid, t: Sid, o: nat)
    requires size > 0 && align > 0 && Tagged(slabs, pages, size, align) && s in slabs && t in slabs
    requires o in ObjsOf(slabs[s], size, align) && o in ObjsOf(slabs[t], size, align)
    ensures s == t
  {
    assert TaggedAt(pages, s, o) && TaggedAt(pages, t, o);
  }

  /** Same memory, other free list. */
  lemma {:induction false} SameObjs(a: Slab, b: Slab, size: nat, align: nat)
    requires size > 0 && align > 0 && a.ptr == b.ptr && a.size == b.size
    ensures ObjsOf(a, size, align) == ObjsOf(b, size, align)
  {}

  /** A write to an object of one slab leaves the free lists of the others alone. */
  lemma {:induction false} OthersIntact(mem: Memory, slabs: Slabs, chains: Chains, pages: map<nat, Sid>, size: nat,
    align: nat, s: Sid, o: nat, v: nat, t: Sid)
    requires size > 0 && align > 0 && Intact(mem, slabs, chains, size, align) && Tagged(slabs, pages, size, align)
    requires s in slabs && o in ObjsOf(slabs[s], size, align) && t in slabs && t != s
    ensures SlabOk(mem[o := v], slabs[t], chains[t], size, align)
  {
    assert SlabOk(mem, slabs[t], chains[t], size, align);
    if o in chains[t] { OneOwner(slabs, pages, size, align, s, t, o); }
    ChainFrame(mem, mem[o := v], slabs[t].free, chains[t]);
  }

  /** An object that a caller holds. */
  ghost predicate IsLive(slabs: Slabs, chains: Chains, size: nat, align: nat, o: nat)
    requires size > 0 && align > 0
  {
    exists s :: LiveIn(slabs, chains, size, align, o, s)
  }

  ghost predicate LiveIn(slabs: Slabs, chains: Chains, size: nat, align: nat, o: nat, s: Sid)
    requires size > 0 && align > 0
  {
    s in slabs && s in chains && o in Live(slabs[s], chains[s], size, align)
  }

  /** The slab of a list and a head that differ from the old ones. */
  function Relisted(sl: Slab, free: nat, nfree: nat): Slab { Slab(sl.ptr, sl.size, free, nfree, sl.nobj) }

  /** Everything but the slab s, its free list and one word of memory is as before. */
  ghost predicate OneSlab(slabs: Slabs, chains: Chains, slabs': Slabs, chains': Chains, s: Sid) {
    && s in slabs && s in slabs' && s in chains && s in chains' && slabs'[s].ptr == slabs[s].ptr
      && slabs'[s].size == slabs[s].size
    && slabs' == slabs[s := slabs'[s]] && chains' == chains[s := chains'[s]]
  }

  lemma {:induction false} StillTagged(slabs: Slabs, pages: map<nat, Sid>, size: nat, align: nat, s: Sid, sl: Slab)
    requires size > 0 && align > 0 && Tagged(slabs, pages, size, align) && s in slabs && sl.ptr == slabs[s].ptr
      && sl.size == slabs[s].size
    ensures Tagged(slabs[s := sl], pages, size, align)
  {
    SameObjs(slabs[s], sl, size, align);
  }

  lemma {:induction false} OneIntact(mem: Memory, slabs: Slabs, chains: Chains, size: nat, align: nat, s: Sid,
    sl: Slab, chain: seq<nat>)
    requires size > 0 && align > 0 && Intact(mem, slabs, chains, size, align) && s in slabs
      && SlabOk(mem, sl, chain, size, align)
    ensures Intact(mem, slabs[s := sl], chains[s := chain], size, align)
  {
    var slabs', chains' := slabs[s := sl], chains[s := chain];
    forall t | t in slabs' ensures SlabOk(mem, slabs'[t], chains'[t], size, align) {
      if t != s { assert SlabOk(mem, slabs[t], chains[t], size, align); }
    }
  }

  lemma {:induction false} WriteIntact(mem: Memory, slabs: Slabs, chains: Chains, pages: map<nat, Sid>, size: nat,
    align: nat, s: Sid, sl: Slab, chain: seq<nat>, o: nat, v: nat)
    requires size > 0 && align > 0 && Intact(mem, slabs, chains, size, align) && Tagged(slabs, pages, size, align)
    requires s in slabs && o in ObjsOf(slabs[s], size, align) && SlabOk(mem[o := v], sl, chain, size, align)
    ensures Intact(mem[o := v], slabs[s := sl], chains[s := chain], size, align)
  {
    var mem', slabs', chains' := mem[o := v], slabs[s := sl], chains[s := chain];
    forall t | t in slabs' ensures SlabOk(mem', slabs'[t], chains'[t], size, align) {
      if t != s { OthersIntact(mem, slabs, chains, pages, size, align, s, o, v, t); }
    }
  }

  /** The object h of the slab s is on its free list in the one state and not in the other. */
  ghost predicate Hands(slabs: Slabs, chains: Chains, slabs': Slabs, chains': Chains, size: nat, align: nat, s: Sid,
    h: nat)
    requires size > 0 && align > 0
  {
    && OneSlab(slabs, chains, slabs', chains', s) && h in ObjsOf(slabs[s], size, align)
    && h in chains[s] && h !in chains'[s] && forall x :: x in chains[s] <==> x in chains'[s] || x == h
  }

  lemma {:induction false} FreeNotLive(slabs: Slabs, chains: Chains, pages: map<nat, Sid>, size: nat, align: nat,
    s: Sid, h: nat)
    requires size > 0 && align > 0 && Tagged(slabs, pages, size, align) && s in slabs && s in chains
    requires h in ObjsOf(slabs[s], size, align) && h in chains[s]
    ensures !IsLive(slabs, chains, size, align, h)
  {
    if IsLive(slabs, chains, size, align, h) {
      var t :| LiveIn(slabs, chains, size, align, h, t);
      OneOwner(slabs, pages, size, align, s, t, h);
      assert false;
    }
  }

  /** One object changes hands. */
  lemma {:induction false} OneLive(slabs: Slabs, chains: Chains, slabs': Slabs, chains': Chains, size: nat,
    align: nat, s: Sid, h: nat, o: nat)
    requires size > 0 && align > 0 && Hands(slabs, chains, slabs', chains', size, align, s, h)
    ensures IsLive(slabs', chains', size, align, o) <==> IsLive(slabs, chains, size, align, o) || o == h
  {
    SameObjs(slabs[s], slabs'[s], size, align);
    if IsLive(slabs, chains, size, align, o) {
      var t :| LiveIn(slabs, chains, size, align, o, t);
      assert LiveIn(slabs', chains', size, align, o, t);
    }
    if IsLive(slabs', chains', size, align, o) && o != h {
      var t :| LiveIn(slabs', chains', size, align, o, t);
      assert LiveIn(slabs, chains, size, align, o, t);
    }
    if o == h { assert LiveIn(slabs', chains', size, align, h, s); }
  }

  lemma {:induction false} OfferedCut(slabs: Slabs, list: seq<Sid>, s: Sid, sl: Slab)
    requires Offered(slabs, list) && s in slabs && sl.nfree == 0
    ensures Offered(slabs[s := sl], Without(list, s))
  {
    WithoutElems(list, s);
  }

  lemma {:induction false} OfferedAdd(slabs: Slabs, list: seq<Sid>, s: Sid, sl: Slab)
    requires Offered(slabs, list) && (s in slabs ==> slabs[s].nfree == 0) && sl.nfree > 0
    ensures Offered(slabs[s := sl], [s] + list) && Offered(slabs[s := sl], list + [s])
  {
    assert s !in list;
  }

  lemma {:induction false} PopOk(mem: Memory, sl: Slab, chain: seq<nat>, size: nat, align: nat)
    requires size > 0 && align > 0 && SlabOk(mem, sl, chain, size, align) && sl.nfree > 0
    ensures sl.free == chain[0] && sl.free in mem && sl.free !in chain[1..] && sl.free in ObjsOf(sl, size, align)
    ensures forall x :: x in chain <==> x in chain[1..] || x == sl.free
    ensures SlabOk(mem, Relisted(sl, mem[sl.free], sl.nfree - 1), chain[1..], size, align)
  {
    SameObjs(sl, Relisted(sl, mem[sl.free], sl.nfree - 1), size, align);
    assert chain == [chain[0]] + chain[1..] && chain[0] in chain;
  }

  lemma {:induction false} PushOk(mem: Memory, sl: Slab, chain: seq<nat>, size: nat, align: nat, o: nat)
    requires size > 0 && align > 0 && SlabOk(mem, sl, chain, size, align) && o > 0 && o in ObjsOf(sl, size, align)
      && o !in chain
    ensures SlabOk(mem[o := sl.free], Relisted(sl, o, sl.nfree + 1), [o] + chain, size, align)
  {
    SameObjs(sl, Relisted(sl, o, sl.nfree + 1), size, align);
    ChainPush(mem, sl.free, chain, o);
  }

  lemma {:induction false} DropLive(mem: Memory, slabs: Slabs, chains: Chains, size: nat, align: nat, s: Sid)
    requires size > 0 && align > 0 && Intact(mem, slabs, chains, size, align) && s in slabs
      && slabs[s].nfree == slabs[s].nobj
    ensures Live(slabs[s], chains[s], size, align) == {}
    ensures forall x :: IsLive(slabs - {s}, chains - {s}, size, align, x) <==> IsLive(slabs, chains, size, align, x)
  {
    assert SlabOk(mem, slabs[s], chains[s], size, align);
    FreePlusLive(mem, slabs[s], chains[s], size, align);
    var slabs', chains' := slabs - {s}, chains - {s};
    forall x ensures IsLive(slabs', chains', size, align, x) <==> IsLive(slabs, chains, size, align, x) {
      if IsLive(slabs', chains', size, align, x) {
        var t :| LiveIn(slabs', chains', size, align, x, t);
        assert LiveIn(slabs, chains, size, align, x, t);
      }
      if IsLive(slabs, chains, size, align, x) {
        var t :| LiveIn(slabs, chains, size, align, x, t);
        assert LiveIn(slabs', chains', size, align, x, t);
      }
    }
  }

  // ----- The order of the list -----

  /** An object of s was handed out: one free object less, and off the list with the last one. */
  predicate Taken(slabs: Slabs, list: seq<Sid>, slabs': Slabs, list': seq<Sid>, s: Sid) {
    && s in slabs && s in slabs' && slabs[s].nfree > 0 && slabs' == slabs[s := slabs'[s]]
    && slabs'[s] == Relisted(slabs[s], slabs'[s].free, slabs[s].nfree - 1)
    && list' == if slabs[s].nfree == 1 then Without(list, s) else list
  }

  /** An object of s came back: one free object more, and at the front of the list with the first one. */
  predicate Returned(slabs: Slabs, list: seq<Sid>, slabs': Slabs, list': seq<Sid>, s: Sid) {
    && s in slabs && s in slabs' && slabs' == slabs[s := slabs'[s]]
    && slabs'[s] == Relisted(slabs[s], slabs'[s].free, slabs[s].nfree + 1)
    && list' == if slabs[s].nfree == 0 then [s] + list else list
  }

  /** All objects are free. */
  predicate Whole(slabs: Slabs, s: Sid) { s in slabs && slabs[s].nfree == slabs[s].nobj }

  /** The slab that vm_slab_reclaim gives back, if any. */
  function Reclaimable(slabs: Slabs, list: seq<Sid>): Option<Sid> {
    if list != [] && Whole(slabs, list[|list| - 1]) then Some(list[|list| - 1]) else None
  }

  /** The comment in vm_slab_reclaim: the wholly free slabs are at the end of the list. */
  ghost predicate WholeLast(slabs: Slabs, list: seq<Sid>) {
    forall i, j | 0 <= i < j < |list| && Whole(slabs, list[i]) :: Whole(slabs, list[j])
  }

  /** There is a slab worth giving back. */
  ghost predicate SomeWhole(slabs: Slabs) { exists s :: Whole(slabs, s) && slabs[s].nobj > 0 }

  /** It is found, in general, if and only if the last slab of the list is one, or none is. */
  lemma {:induction false} FoundExactly(slabs: Slabs, list: seq<Sid>)
    requires Offered(slabs, list)
    ensures (SomeWhole(slabs) ==> Reclaimable(slabs, list).Some?) <==>
            (list != [] && Whole(slabs, list[|list| - 1])) || forall s | s in list :: !Whole(slabs, s)
  {
    forall s | Whole(slabs, s) && slabs[s].nobj > 0 ensures s in list {}
  }

  /** If the comment is true it is found whenever there is one. */
  lemma {:induction false} WholeLastFound(slabs: Slabs, list: seq<Sid>)
    requires Offered(slabs, list) && WholeLast(slabs, list) && SomeWhole(slabs)
    ensures Reclaimable(slabs, list).Some?
  {
    var s :| Whole(slabs, s) && slabs[s].nobj > 0;
    assert s in list;
    var i :| 0 <= i < |list| && list[i] == s;
  }

  lemma {:induction false} WithoutLast(list: seq<Sid>)
    requires NoDup(list) && list != []
    ensures Without(list, list[|list| - 1]) == list[..|list| - 1]
  {
    if |list| > 1 {
      assert list[1..][|list| - 2] == list[|list| - 1];
      WithoutLast(list[1..]);
      assert list[..|list| - 1] == [list[0]] + list[1..][..|list| - 2];
    }
  }

  /** Allocating and reclaiming keep the comment true. */
  lemma {:induction false} TakenKeeps(slabs: Slabs, list: seq<Sid>, slabs': Slabs, list': seq<Sid>)
    requires Offered(slabs, list) && WholeLast(slabs, list) && list != [] && Taken(slabs, list, slabs', list', list[0])
    requires forall s | s in slabs :: slabs[s].nfree <= slabs[s].nobj
    ensures WholeLast(slabs', list')
  {
    forall j | 0 < j < |list| ensures list[j] != list[0] {}
    var d := if slabs[list[0]].nfree == 1 then 1 else 0;
    assert list' == list[d..];
    forall i, j | 0 <= i < j < |list'| && Whole(slabs', list'[i]) ensures Whole(slabs', list'[j]) {
      assert list'[i] == list[i + d] && list'[j] == list[j + d];
    }
  }

  lemma {:induction false} ReclaimKeeps(slabs: Slabs, list: seq<Sid>)
    requires Offered(slabs, list) && WholeLast(slabs, list) && Reclaimable(slabs, list).Some?
    ensures WholeLast(slabs - {list[|list| - 1]}, Without(list, list[|list| - 1]))
  {
    var last := list[|list| - 1];
    WithoutLast(list);
    forall i | 0 <= i < |list| - 1
      ensures Whole(slabs - {last}, list[i]) <==> Whole(slabs, list[i])
    {
      assert list[i] != last;
    }
  }

  /** Every slab behind s on the list is wholly free; all of them if s is not on it. */
  ghost predicate BehindWhole(slabs: Slabs, list: seq<Sid>, s: Sid) {
    forall j | 0 <= j < |list| && (s in list[..j] || s !in list) :: Whole(slabs, list[j])
  }

  /** Where s is on the list after one of its objects came back. */
  lemma {:induction false} ReturnedPlace(slabs: Slabs, list: seq<Sid>, slabs': Slabs, list': seq<Sid>, s: Sid)
    returns (d: nat, i: nat)
    requires Offered(slabs, list) && Returned(slabs, list, slabs', list', s)
    ensures |list'| == |list| + d && i < |list'| && list'[i] == s && (i > 0 ==> d == 0 && list' == list)
    ensures forall k | 0 <= k < |list'| && k != i :: Moved(slabs, list, slabs', list', s, d, i, k)
  {
    d := if slabs[s].nfree == 0 then 1 else 0;
    if d == 1 {
      i := 0;
    } else {
      i :| 0 <= i < |list| && list[i] == s;
    }
  }

  /** The slab at place k of the new list is another one, which is as it was and was d places before. */
  ghost predicate Moved(slabs: Slabs, list: seq<Sid>, slabs': Slabs, list': seq<Sid>, s: Sid, d: nat, i: nat, k: nat)
    requires k < |list'| == |list| + d
  {
    && d <= k && list'[k] == list[k - d] != s
    && (Whole(slabs', list'[k]) <==> Whole(slabs, list[k - d]))
    && (s in list[..k - d] || s !in list <==> i < k)
  }

  /**
   Giving an object back keeps the comment true if and only if its slab does not become wholly free
   before one that is not.
   */
  lemma {:induction false} ReturnedKeeps(slabs: Slabs, list: seq<Sid>, slabs': Slabs, list': seq<Sid>, s: Sid)
    requires Offered(slabs, list) && WholeLast(slabs, list) && Returned(slabs, list, slabs', list', s)
    requires slabs[s].nfree < slabs[s].nobj
    ensures WholeLast(slabs', list') <==> slabs[s].nfree + 1 < slabs[s].nobj || BehindWhole(slabs, list, s)
  {
    var d, i := ReturnedPlace(slabs, list, slabs', list', s);
    if slabs[s].nfree + 1 < slabs[s].nobj || BehindWhole(slabs, list, s) {
      ReturnedKeeping(slabs, list, slabs', list', s, d, i);
    } else {
      var j :| 0 <= j < |list| && (s in list[..j] || s !in list) && !Whole(slabs, list[j]);
      assert j + d != i ==> Moved(slabs, list, slabs', list', s, d, i, j + d);
      assert Whole(slabs', list'[i]) && !Whole(slabs', list'[j + d]);
    }
  }

  lemma {:induction false} ReturnedKeeping(slabs: Slabs, list: seq<Sid>, slabs': Slabs, list': seq<Sid>, s: Sid,
      d: nat, i: nat)
    requires |list'| == |list| + d && i < |list'| && list'[i] == s && (i > 0 ==> d == 0 && list' == list)
    requires s in slabs && s in slabs' && slabs[s].nfree < slabs[s].nobj
    requires WholeLast(slabs, list) && slabs'[s].nobj == slabs[s].nobj && slabs'[s].nfree == slabs[s].nfree + 1
    requires forall k | 0 <= k < |list'| && k != i :: Moved(slabs, list, slabs', list', s, d, i, k)
    requires slabs[s].nfree + 1 < slabs[s].nobj || BehindWhole(slabs, list, s)
    ensures WholeLast(slabs', list')
  {
    forall j, k | 0 <= j < k < |list'| && Whole(slabs', list'[j]) ensures Whole(slabs', list'[k]) {
      if j == i {
        assert Moved(slabs, list, slabs', list', s, d, i, k);
      } else {
        assert Moved(slabs, list, slabs', list', s, d, i, j) && Whole(slabs, list[j - d]);
        assert 0 <= j - d < k - d < |list|;
        if k != i { assert Moved(slabs, list, slabs', list', s, d, i, k); }
      }
    }
  }

  /** A new slab at the end keeps it true; at the front, exactly if all the others are wholly free. */
  lemma {:induction false} AddedKeeps(slabs: Slabs, list: seq<Sid>, s: Sid, sl: Slab)
    requires Offered(slabs, list) && WholeLast(slabs, list) && s !in slabs && sl.nfree == sl.nobj
    ensures WholeLast(slabs[s := sl], list + [s])
    ensures WholeLast(slabs[s := sl], [s] + list) <==> forall t | t in list :: Whole(slabs, t)
  {
    var slabs' := slabs[s := sl];
    assert forall t | t in list :: Whole(slabs', t) <==> Whole(slabs, t);
    var front := [s] + list;
    forall j | 0 <= j < |list| ensures front[j + 1] == list[j] {}
    if WholeLast(slabs', front) {
      forall t | t in list ensures Whole(slabs, t) {
        var j :| 0 <= j < |list| && list[j] == t;
        assert Whole(slabs', front[0]) && Whole(slabs', front[j + 1]);
      }
    }
  }

  // ----- New slabs -----

  /** The loop of vm_slab_init_slab: every object goes on the free list. */
  method ThreadObjects(start: Memory, ptr: nat, end: nat, size: nat, align: nat)
    returns (mem: Memory, free: nat, n: nat, ghost chain: seq<nat>)
    requires size > 0 && align > 0 && ptr > 0
    ensures Chained(mem, free, chain) && NoDup(chain) && n == |chain| == |Objs(AlignUp(ptr, align), end, size, align)|
    ensures forall o :: o in chain <==> o in Objs(AlignUp(ptr, align), end, size, align)
    ensures forall o | o in start && o !in chain :: o in mem && mem[o] == start[o]
  {
    mem, free, n, chain := start, 0, 0, [];
    AlignUpIs(ptr, align);
    var p := AlignUp(ptr, align);
    ghost var all := Objs(p, end, size, align);
    ghost var done: seq<nat> := [];
    while p + size <= end
      invariant p > 0 && all == done + Objs(p, end, size, align) && n == |chain| == |done|
      invariant (forall o :: o in chain <==> o in done) && (forall o | o in chain :: o < p)
      invariant Chained(mem, free, chain) && NoDup(chain)
      invariant forall o | o in start && o !in chain :: o in mem && mem[o] == start[o]
      decreases end - p
    {
      ChainPush(mem, free, chain, p);
      mem := mem[p := free];
      free := p;
      n := n + 1;
      chain := [p] + chain;
      done := done + [p];
      AlignUpIs(p + size, align);
      p := AlignUp(p + size, align);
    }
  }

  /** The loop that notes the slab in the pages of its memory. */
  method TagPages(start: map<nat, Sid>, first: nat, n: nat, s: Sid) returns (pages: map<nat, Sid>)
    ensures forall q | first <= q < first + n :: q in pages && pages[q] == s
    ensures forall q | !(first <= q < first + n) ::
      (q in pages <==> q in start) && (q in start ==> pages[q] == start[q])
  {
    pages := start;
    for i := 0 to n
      invariant forall q | first <= q < first + i :: q in pages && pages[q] == s
      invariant forall q | !(first <= q < first + i) ::
        (q in pages <==> q in start) && (q in start ==> pages[q] == start[q])
    {
      pages := pages[first + i := s];
    }
  }

  /** Memory whose pages name none of the slabs. */
  ghost predicate Unused(slabs: Slabs, pages: map<nat, Sid>, first: nat, n: nat) {
    forall q | first <= q < first + n && q in pages :: pages[q] !in slabs
  }

  /** The rounds of the loop over a memory of len bytes, page by page. */
  function Pages(len: nat): nat { (len + PAGE - 1) / PAGE }

  /** The n pages from ptr's on are all that the memory reaches. */
  predicate Spans(ptr: nat, len: nat, n: nat) { ptr % PAGE + len <= PAGE * n }

  /** An object of an old slab is not in new memory. */
  lemma {:induction false} Elsewhere(slabs: Slabs, pages: map<nat, Sid>, size: nat, align: nat, t: Sid, o: nat,
    first: nat, n: nat)
    requires size > 0 && align > 0 && Tagged(slabs, pages, size, align) && Unused(slabs, pages, first, n)
    requires t in slabs && o in ObjsOf(slabs[t], size, align)
    ensures !(first <= o / PAGE < first + n)
  {
    assert TaggedAt(pages, t, o);
  }

  lemma {:induction false} NewPage(sl: Slab, size: nat, align: nat, o: nat, n: nat)
    requires size > 0 && align > 0 && Spans(sl.ptr, sl.size, n) && o in ObjsOf(sl, size, align)
    ensures sl.ptr / PAGE <= o / PAGE < sl.ptr / PAGE + n
  {
    ObjsInside(sl, size, align);
    assert ObjOk(o, sl.ptr, sl.ptr + sl.size, size, align);
  }

  lemma {:induction false} AddTagged(slabs: Slabs, pages: map<nat, Sid>, pages': map<nat, Sid>, size: nat, align: nat,
    s: Sid, sl: Slab, n: nat)
    requires size > 0 && align > 0 && Tagged(slabs, pages, size, align) && s !in slabs
    requires Spans(sl.ptr, sl.size, n) && Unused(slabs, pages, sl.ptr / PAGE, n)
    requires forall q | sl.ptr / PAGE <= q < sl.ptr / PAGE + n :: q in pages' && pages'[q] == s
    requires forall q | !(sl.ptr / PAGE <= q < sl.ptr / PAGE + n) ::
      (q in pages' <==> q in pages) && (q in pages ==> pages'[q] == pages[q])
    ensures Tagged(slabs[s := sl], pages', size, align)
  {
    forall t, o | t in slabs[s := sl] && o in ObjsOf(slabs[s := sl][t], size, align) ensures TaggedAt(pages', t, o) {
      if t == s {
        NewPage(sl, size, align, o, n);
      } else {
        assert TaggedAt(pages, t, o);
        Elsewhere(slabs, pages, size, align, t, o, sl.ptr / PAGE, n);
      }
    }
  }

  lemma {:induction false} AddIntact(mem: Memory, mem': Memory, slabs: Slabs, chains: Chains, pages: map<nat, Sid>,
    size: nat, align: nat, s: Sid, sl: Slab, chain: seq<nat>, n: nat)
    requires size > 0 && align > 0 && Intact(mem, slabs, chains, size, align) && Tagged(slabs, pages, size, align)
      && s !in slabs
    requires Spans(sl.ptr, sl.size, n) && Unused(slabs, pages, sl.ptr / PAGE, n)
    requires SlabOk(mem', sl, chain, size, align) && forall o | o in mem && o !in chain ::
      o in mem' && mem'[o] == mem[o]
    ensures Intact(mem', slabs[s := sl], chains[s := chain], size, align)
  {
    var slabs', chains' := slabs[s := sl], chains[s := chain];
    forall t | t in slabs' ensures SlabOk(mem', slabs'[t], chains'[t], size, align) {
      if t != s {
        assert SlabOk(mem, slabs[t], chains[t], size, align);
        forall o | o in chains[t] ensures o !in chain {
          Elsewhere(slabs, pages, size, align, t, o, sl.ptr / PAGE, n);
          if o in chain { NewPage(sl, size, align, o, n); }
        }
        ChainFrame(mem, mem', slabs[t].free, chains[t]);
      }
    }
  }

  lemma {:induction false} AddLive(slabs: Slabs, chains: Chains, size: nat, align: nat, s: Sid, sl: Slab,
    chain: seq<nat>)
    requires size > 0 && align > 0 && s !in slabs && s !in chains && forall o ::
      o in chain <==> o in ObjsOf(sl, size, align)
    ensures forall x: nat ::
      IsLive(slabs[s := sl], chains[s := chain], size, align, x) <==> IsLive(slabs, chains, size, align, x)
  {
    var slabs', chains' := slabs[s := sl], chains[s := chain];
    forall x: nat ensures IsLive(slabs', chains', size, align, x) <==> IsLive(slabs, chains, size, align, x) {
      if IsLive(slabs, chains, size, align, x) {
        var t :| LiveIn(slabs, chains, size, align, x, t);
        assert LiveIn(slabs', chains', size, align, x, t);
      }
      if IsLive(slabs', chains', size, align, x) {
        var t :| LiveIn(slabs', chains', size, align, x, t);
        assert LiveIn(slabs, chains, size, align, x, t);
      }
    }
  }

  class Allocator {
    const size: nat
    const align: nat
    var slabs: Slabs
    var list: seq<Sid>
    var mem: Memory
    var pages: map<nat, Sid>
    ghost var chains: Chains

    ghost predicate Valid()
      reads this
    {
      && size > 0 && align > 0
      && Intact(mem, slabs, chains, size, align) && Offered(slabs, list) && Tagged(slabs, pages, size, align)
    }

    /** vm_slab_create */
    constructor (size: nat, align: nat)
      requires size > 0 && align > 0
      ensures Valid() && this.size == size && this.align == align
      ensures slabs == map[] && chains == map[] && list == [] && pages == map[]
    {
      this.size := size;
      this.align := align;
      slabs := map[];
      list := [];
      mem := map[];
      pages := map[];
      chains := map[];
    }

    /**
     vm_slab_init_slab, and the insertion into the list at one of its ends: memory in which an
     object fits becomes a slab with all its objects free.
     */
    method AddSlab(s: Sid, ptr: nat, len: nat, front: bool)
      requires Valid() && s !in slabs && ptr > 0
      requires Spans(ptr, len, Pages(len)) && Unused(slabs, pages, ptr / PAGE, Pages(len))
      requires Objs(AlignUp(ptr, align), ptr + len, size, align) != []
      modifies this
      ensures Valid() && s in slabs && slabs == old(slabs)[s := slabs[s]] && slabs[s].ptr == ptr && slabs[s].size == len
      ensures slabs[s].nfree == slabs[s].nobj == |Objs(AlignUp(ptr, align), ptr + len, size, align)|
      ensures list == if front then [s] + old(list) else old(list) + [s]
      ensures forall q :: q in pages <==> q in old(pages) || ptr / PAGE <= q < ptr / PAGE + Pages(len)
      ensures forall q | q in pages ::
        pages[q] == if ptr / PAGE <= q < ptr / PAGE + Pages(len) then s else old(pages)[q]
      ensures forall x: nat ::
        IsLive(slabs, chains, size, align, x) <==> IsLive(old(slabs), old(chains), size, align, x)
    {
      var n := Pages(len);
      var tagged := TagPages(pages, ptr / PAGE, n, s);
      var threaded, free, k;
      ghost var chain;
      threaded, free, k, chain := ThreadObjects(mem, ptr, ptr + len, size, align);
      var sl := Slab(ptr, len, free, k, k);
      AddTagged(slabs, pages, tagged, size, align, s, sl, n);
      AddIntact(mem, threaded, slabs, chains, pages, size, align, s, sl, chain, n);
      pages := tagged;
      mem := threaded;
      Enlist(s, sl, chain, front);
    }

    method Enlist(s: Sid, sl: Slab, ghost chain: seq<nat>, front: bool)
      requires size > 0 && align > 0 && s !in slabs && chains.Keys == slabs.Keys && Offered(slabs, list) && sl.nfree > 0
      requires Intact(mem, slabs[s := sl], chains[s := chain], size, align)
        && Tagged(slabs[s := sl], pages, size, align)
      requires forall o :: o in chain <==> o in ObjsOf(sl, size, align)
      modifies this`slabs, this`list, this`chains
      ensures Valid() && slabs == old(slabs)[s := sl] && list == if front then [s] + old(list) else old(list) + [s]
      ensures forall x: nat ::
        IsLive(slabs, chains, size, align, x) <==> IsLive(old(slabs), old(chains), size, align, x)
    {
      OfferedAdd(slabs, list, s, sl);
      AddLive(slabs, chains, size, align, s, sl, chain);
      list := if front then [s] + list else list + [s];
      slabs := slabs[s := sl];
      chains := chains[s := chain];
    }

    /** vm_slab_alloc, from the first slab that has a free object. */
    method Alloc() returns (r: Option<nat>)
      requires Valid()
      modifies this
      ensures Valid() && slabs.Keys == old(slabs).Keys && pages == old(pages)
      ensures r.None? <==> old(list) == []
      ensures r.None? ==> slabs == old(slabs) && list == old(list) && mem == old(mem) && chains == old(chains)
      ensures r.Some? ==> Taken(old(slabs), old(list), slabs, list, old(list)[0])
      ensures r.Some? ==> r.value in ObjsOf(old(slabs)[old(list)[0]], size, align)
      ensures r.Some? ==> !IsLive(old(slabs), old(chains), size, align, r.value)
      ensures r.Some? ==>
        forall o ::
        IsLive(slabs, chains, size, align, o) <==> IsLive(old(slabs), old(chains), size, align, o) || o == r.value
    {
      r := None;
      if list != [] {
        var s := list[0];
        assert s in list;
        var o := Pop(s);
        r := Some(o);
      }
    }

    /** Take the first object off a slab's free list. */
    method Pop(s: Sid) returns (o: nat)
      requires Valid() && s in slabs && slabs[s].nfree > 0
      modifies this
      ensures Valid() && slabs.Keys == old(slabs).Keys && pages == old(pages)
      ensures Taken(old(slabs), old(list), slabs, list, s) && o in ObjsOf(old(slabs)[s], size, align)
      ensures !IsLive(old(slabs), old(chains), size, align, o)
      ensures forall x ::
        IsLive(slabs, chains, size, align, x) <==> IsLive(old(slabs), old(chains), size, align, x) || x == o
    {
      var sl := slabs[s];
      ghost var chain := chains[s];
      PopOk(mem, sl, chain, size, align);
      o := sl.free;
      var left := Relisted(sl, mem[o], sl.nfree - 1);
      OneIntact(mem, slabs, chains, size, align, s, left, chain[1..]);
      StillTagged(slabs, pages, size, align, s, left);
      FreeNotLive(slabs, chains, pages, size, align, s, o);
      if left.nfree == 0 {
        OfferedCut(slabs, list, s, left);
        list := Without(list, s);
      }
      slabs := slabs[s := left];
      chains := chains[s := chain[1..]];
      forall x: nat ensures IsLive(slabs, chains, size, align, x) <==>
        IsLive(old(slabs), old(chains), size, align, x) || x == o {
        OneLive(old(slabs), old(chains), slabs, chains, size, align, s, o, x);
      }
    }

    /** vm_slab_free: the page of the object tells its slab. */
    method Free(o: nat)
      requires Valid() && o > 0 && IsLive(slabs, chains, size, align, o)
      modifies this
      ensures Valid() && slabs.Keys == old(slabs).Keys && pages == old(pages)
      ensures o / PAGE in pages && Returned(old(slabs), old(list), slabs, list, pages[o / PAGE])
      ensures !IsLive(slabs, chains, size, align, o)
      ensures forall x ::
        IsLive(old(slabs), old(chains), size, align, x) <==> IsLive(slabs, chains, size, align, x) || x == o
    {
      ghost var t :| LiveIn(slabs, chains, size, align, o, t);
      assert TaggedAt(pages, t, o);
      var s := pages[o / PAGE];
      var sl := slabs[s];
      ghost var chain := chains[s];
      PushOk(mem, sl, chain, size, align, o);
      var more := Relisted(sl, o, sl.nfree + 1);
      WriteIntact(mem, slabs, chains, pages, size, align, s, more, [o] + chain, o, sl.free);
      StillTagged(slabs, pages, size, align, s, more);
      mem := mem[o := sl.free];
      if more.nfree == 1 {
        OfferedAdd(slabs, list, s, more);
        list := [s] + list;
      }
      slabs := slabs[s := more];
      chains := chains[s := [o] + chain];
      SameObjs(sl, more, size, align);
      FreeNotLive(slabs, chains, pages, size, align, s, o);
      forall x: nat ensures IsLive(old(slabs), old(chains), size, align, x) <==>
        IsLive(slabs, chains, size, align, x) || x == o {
        OneLive(slabs, chains, old(slabs), old(chains), size, align, s, o, x);
      }
    }

    /** What a caller writes into an object it holds does not disturb the allocator. */
    method UserWrite(o: nat, v: nat)
      requires Valid() && IsLive(slabs, chains, size, align, o)
      modifies this`mem
      ensures Valid() && mem == old(mem)[o := v]
    {
      ghost var t :| LiveIn(slabs, chains, size, align, o, t);
      assert SlabOk(mem, slabs[t], chains[t], size, align);
      ChainFrame(mem, mem[o := v], slabs[t].free, chains[t]);
      WriteIntact(mem, slabs, chains, pages, size, align, t, slabs[t], chains[t], o, v);
      assert slabs[t := slabs[t]] == slabs && chains[t := chains[t]] == chains;
      mem := mem[o := v];
    }

    /** vm_slab_reclaim: give back the memory of the last slab on the list if all its objects are free. */
    method Reclaim() returns (r: Option<Sid>)
      requires Valid()
      modifies this
      ensures Valid() && pages == old(pages) && r == Reclaimable(old(slabs), old(list))
      ensures r.Some? ==> r.value in old(slabs) && r.value in old(chains) && slabs == old(slabs) - {r.value}
      ensures r.Some? ==> list == Without(old(list), r.value)
      ensures r.Some? ==> Live(old(slabs)[r.value], old(chains)[r.value], size, align) == {}
      ensures r.None? ==> slabs == old(slabs) && chains == old(chains) && list == old(list)
      ensures forall x :: IsLive(slabs, chains, size, align, x) <==> IsLive(old(slabs), old(chains), size, align, x)
    {
      r := None;
      if list != [] {
        var s := list[|list| - 1];
        assert s in list;
        if slabs[s].nfree == slabs[s].nobj {
          Drop(s);
          r := Some(s);
        }
      }
    }

    method Drop(s: Sid)
      requires Valid() && s in slabs && slabs[s].nfree == slabs[s].nobj
      modifies this
      ensures Valid() && slabs == old(slabs) - {s} && list == Without(old(list), s) && pages == old(pages)
      ensures s in old(chains) && Live(old(slabs)[s], old(chains)[s], size, align) == {}
      ensures forall x :: IsLive(slabs, chains, size, align, x) <==> IsLive(old(slabs), old(chains), size, align, x)
    {
      DropLive(mem, slabs, chains, size, align, s);
      WithoutElems(list, s);
      list := Without(list, s);
      slabs := slabs - {s};
      chains := chains - {s};
      forall t | t in slabs
        ensures SlabOk(mem, slabs[t], chains[t], size, align)
      {
        assert SlabOk(mem, old(slabs)[t], old(chains)[t], size, align);
      }
    }
  }

  lemma {:induction false} TwoObjects(ptr: nat)
    requires ptr % 8 == 0
    ensures Objs(AlignUp(ptr, 8), ptr + PAGE, 2048, 8) == [ptr, ptr + 2048]
  {
    AlignedStays(ptr, 8);
    AlignedStays(ptr + 2048, 8);
    AlignedStays(ptr + 4096, 8);
    assert Objs(ptr + 4096, ptr + PAGE, 2048, 8) == [];
    assert Objs(ptr + 2048, ptr + PAGE, 2048, 8) == [ptr + 2048];
  }

  /** A slab of two objects, both handed out. */
  method Filled() returns (alloc: Allocator, a: nat, b: nat)
    ensures fresh(alloc) && alloc.Valid() && alloc.size == 2048 && alloc.align == 8
    ensures alloc.slabs.Keys == {1} && alloc.slabs[1].nfree == 0 && alloc.slabs[1].nobj == 2 && alloc.list == []
    ensures a != b && {a, b} <= {PAGE, PAGE + 2048} && alloc.pages == map[1 := 1]
    ensures forall o :: IsLive(alloc.slabs, alloc.chains, 2048, 8, o) <==> o == a || o == b
  {
    alloc := new Allocator(2048, 8);
    TwoObjects(PAGE);
    alloc.AddSlab(1, PAGE, PAGE, true);
    assert alloc.pages == map[1 := 1] && alloc.list == [1] && alloc.slabs[1].nfree == 2;
    forall o ensures !IsLive(alloc.slabs, alloc.chains, 2048, 8, o) {}
    var x := alloc.Alloc();
    assert alloc.list == [1] && alloc.slabs[1].nfree == 1;
    var y := alloc.Alloc();
    assert alloc.list == [];
    a, b := x.value, y.value;
  }

  /** And a second slab. */
  method Second() returns (alloc: Allocator, a: nat, b: nat)
    ensures fresh(alloc) && alloc.Valid() && alloc.size == 2048 && alloc.align == 8
    ensures alloc.slabs.Keys == {1, 2} && alloc.slabs[1].nfree == 0 && alloc.slabs[1].nobj == 2
    ensures alloc.slabs[2].nfree == 2 && alloc.slabs[2].nobj == 2 && alloc.list == [2]
    ensures a != b && a / PAGE == b / PAGE == 1 && 1 in alloc.pages && alloc.pages[1] == 1
    ensures IsLive(alloc.slabs, alloc.chains, 2048, 8, a) && IsLive(alloc.slabs, alloc.chains, 2048, 8, b)
  {
    alloc, a, b := Filled();
    TwoObjects(2 * PAGE);
    alloc.AddSlab(2, 2 * PAGE, PAGE, true);
    assert alloc.list == [2];
  }

  /** With one of its objects handed out. */
  method HalfUsed() returns (alloc: Allocator, a: nat, b: nat)
    ensures fresh(alloc) && alloc.Valid() && alloc.size == 2048 && alloc.align == 8
    ensures alloc.slabs.Keys == {1, 2} && alloc.slabs[1].nfree == 0 && alloc.slabs[1].nobj == 2
    ensures alloc.slabs[2].nfree == 1 && alloc.slabs[2].nobj == 2 && alloc.list == [2]
    ensures a != b && a / PAGE == b / PAGE == 1 && 1 in alloc.pages && alloc.pages[1] == 1
    ensures IsLive(alloc.slabs, alloc.chains, 2048, 8, a) && IsLive(alloc.slabs, alloc.chains, 2048, 8, b)
  {
    alloc, a, b := Second();
    var c := alloc.Alloc();
  }

  /**
   The comment is not true: fill slab 1, take one object of a new slab 2, and give back what slab 1
   holds. It is wholly free then and not reclaimed.
   */
  method WholeSlabMissed() returns (alloc: Allocator, r: Option<Sid>)
    ensures alloc.Valid() && r == None && SomeWhole(alloc.slabs) && !WholeLast(alloc.slabs, alloc.list)
  {
    var a, b;
    alloc, a, b := HalfUsed();
    alloc.Free(a);
    assert alloc.list == [1, 2] && alloc.slabs[1].nfree == 1;
    alloc.Free(b);
    assert Whole(alloc.slabs, 1) && !Whole(alloc.slabs, 2);
    r := alloc.Reclaim();
    assert Whole(alloc.slabs, alloc.list[0]);
  }
}
