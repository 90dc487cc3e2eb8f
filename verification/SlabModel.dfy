/** Slabs (vm/slab.c): where the objects of a slab are, and free lists threaded through the free objects. */
module SlabModel {
  import opened Arith
  import opened Lists

  const PAGE: nat := 4096

  type Sid = nat

  /** The memory of a slab, the head of its free list (0 for none) and its counters. */
  datatype Slab = Slab(ptr: nat, size: nat, free: nat, nfree: nat, nobj: nat)

  /** The first word of every object. */
  type Memory = map<nat, nat>

  // ----- Objects -----

  /** The objects from p on: each followed by the next aligned address with room for one. */
  function Objs(p: nat, end: nat, size: nat, align: nat): seq<nat>
    requires size > 0 && align > 0
    decreases if end >= p then end - p else 0
  {
    if p + size <= end then
      AlignUpIs(p + size, align);
      [p] + Objs(AlignUp(p + size, align), end, size, align)
    else []
  }

  /** An object is aligned and inside the memory from lo to end. */
  predicate ObjOk(o: nat, lo: nat, end: nat, size: nat, align: nat)
    requires align > 0
  {
    lo <= o && o + size <= end && o % align == 0
  }

  ghost predicate Spaced(s: seq<nat>, size: nat) { forall i, j :: 0 <= i < j < |s| ==> s[i] + size <= s[j] }

  /** Objects are aligned, inside the memory and apart from one another. */
  lemma {:induction false} ObjsApart(p: nat, end: nat, size: nat, align: nat)
    requires size > 0 && align > 0 && p % align == 0
    ensures
      var s := Objs(p, end, size, align);
      Spaced(s, size) && forall i | 0 <= i < |s| :: ObjOk(s[i], p, end, size, align)
    decreases if end >= p then end - p else 0
  {
    if p + size <= end {
      var q := AlignUp(p + size, align);
      AlignUpIs(p + size, align);
      ObjsApart(q, end, size, align);
      var s, t := Objs(p, end, size, align), Objs(q, end, size, align);
      assert s == [p] + t;
      forall i | 0 <= i < |s| ensures ObjOk(s[i], p, end, size, align) {
        if i > 0 { assert s[i] == t[i - 1] && ObjOk(t[i - 1], q, end, size, align); }
      }
      forall i, j | 0 <= i < j < |s| ensures s[i] + size <= s[j] {
        assert s[j] == t[j - 1] && ObjOk(t[j - 1], q, end, size, align);
      }
    }
  }

  function First(sl: Slab, align: nat): nat
    requires align > 0
  {
    AlignUp(sl.ptr, align)
  }

  function ObjsOf(sl: Slab, size: nat, align: nat): seq<nat>
    requires size > 0 && align > 0
  {
    Objs(First(sl, align), sl.ptr + sl.size, size, align)
  }

  lemma {:induction false} ObjsInside(sl: Slab, size: nat, align: nat)
    requires size > 0 && align > 0
    ensures
      var s := ObjsOf(sl, size, align);
      Spaced(s, size) && forall o | o in s :: ObjOk(o, sl.ptr, sl.ptr + sl.size, size, align)
  {
    AlignUpIs(sl.ptr, align);
    ObjsApart(First(sl, align), sl.ptr + sl.size, size, align);
    var s := ObjsOf(sl, size, align);
    forall o | o in s ensures ObjOk(o, sl.ptr, sl.ptr + sl.size, size, align) {
      var i :| 0 <= i < |s| && s[i] == o;
      assert ObjOk(s[i], First(sl, align), sl.ptr + sl.size, size, align);
    }
  }

  /** A page-aligned page of memory makes a slab with an object in it if and only if an object fits in a page. */
  lemma {:induction false} SomeObject(sl: Slab, size: nat, align: nat)
    requires size > 0 && align > 0 && sl.ptr % align == 0 && sl.size == PAGE
    ensures ObjsOf(sl, size, align) != [] <==> size <= PAGE
  {
    AlignUpIs(sl.ptr, align);
  }

  // ----- Free lists -----

  /** Following the first words from head on gives exactly the chain. */
  ghost predicate Chained(mem: Memory, head: nat, chain: seq<nat>)
    decreases |chain|
  {
    if chain == [] then head == 0
    else head == chain[0] && head != 0 && head in mem && Chained(mem, mem[head], chain[1..])
  }

  lemma {:induction false} ChainPush(mem: Memory, head: nat, chain: seq<nat>, o: nat)
    requires Chained(mem, head, chain) && o != 0 && o !in chain
    ensures Chained(mem[o := head], o, [o] + chain)
  {
    ChainFrame(mem, mem[o := head], head, chain);
    assert ([o] + chain)[1..] == chain;
  }

  /** Writing to other addresses does not touch the chain. */
  lemma {:induction false} ChainFrame(mem: Memory, mem': Memory, head: nat, chain: seq<nat>)
    requires Chained(mem, head, chain) && forall o | o in chain && o in mem :: o in mem' && mem'[o] == mem[o]
    ensures Chained(mem', head, chain)
    decreases |chain|
  {
    if chain != [] { ChainFrame(mem, mem', mem[head], chain[1..]); }
  }

  // ----- One slab -----

  /** The free list holds objects of the slab, each once; the counters count it and them. */
  ghost predicate SlabOk(mem: Memory, sl: Slab, chain: seq<nat>, size: nat, align: nat)
    requires size > 0 && align > 0
  {
    && sl.ptr > 0 && Chained(mem, sl.free, chain) && NoDup(chain)
    && sl.nfree == |chain| && sl.nobj == |ObjsOf(sl, size, align)|
    && forall o | o in chain :: o in ObjsOf(sl, size, align)
  }

  /** Objects handed out and not given back. */
  ghost function Live(sl: Slab, chain: seq<nat>, size: nat, align: nat): set<nat>
    requires size > 0 && align > 0
  {
    set o | o in ObjsOf(sl, size, align) && o !in chain
  }

  lemma {:induction false} SeqSize(s: seq<nat>, t: set<nat>)
    requires NoDup(s) && forall x :: x in s <==> x in t
    ensures |t| == |s|
  {
    if s == [] {
      assert t == {};
    } else {
      var n := |s| - 1;
      assert s == s[..n] + [s[n]];
      SeqSize(s[..n], t - {s[n]});
    }
  }

  lemma {:induction false} TwoParts(all: set<nat>, a: set<nat>, b: set<nat>)
    requires forall x :: x in b <==> x in all && x !in a
    requires a <= all
    ensures |a| + |b| == |all|
  {
    assert all == a + b && a !! b;
  }

  /** Free and live objects add up. */
  lemma {:induction false} FreePlusLive(mem: Memory, sl: Slab, chain: seq<nat>, size: nat, align: nat)
    requires size > 0 && align > 0 && SlabOk(mem, sl, chain, size, align)
    ensures sl.nfree + |Live(sl, chain, size, align)| == sl.nobj
  {
    var s := ObjsOf(sl, size, align);
    ObjsInside(sl, size, align);
    var all, free := set o | o in s, set o | o in chain;
    SeqSize(s, all);
    SeqSize(chain, free);
    TwoParts(all, free, Live(sl, chain, size, align));
  }
}
