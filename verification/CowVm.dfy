/** The virtual memory operations as the kernel runs them. */
module CowVm {
  // Objects and mappings are updated in place; each operation is proved to take exactly the steps
  // of the model.

  import opened CowState
  import opened CowSteps
  import opened CowInvariant
  import opened CowMeaning
  import opened CowLean
  import opened Lists

  /** All references of all objects, one element each. */
  ghost function Refs(objs: Objs): set<(Id, nat)> { set o, i: nat | o in objs && i < objs[o].ref :: (o, i) }

  /** Nothing that can be read from a mapping is lost or changed, and only mappings of `gone` disappear. */
  ghost predicate Quiet(st: State, st': State, gone: set<Id>) {
    && Inv(st') && st'.maps.Keys == st.maps.Keys - gone
    && (forall m | m in st'.maps ::
      st'.maps[m].first == st.maps[m].first && st'.maps[m].limit == st.maps[m].limit
      && st'.maps[m].vas == st.maps[m].vas)
    && (forall m, a | m in st'.maps && InRange(st.maps[m], a) && Readable(st, m) && Readable(st', m) ::
      ReadByte(st', m, a) == ReadByte(st, m, a))
  }

  lemma {:induction false} QuietDrop(st: State, o: Id)
    requires Inv(st) && Enabled(st, Drop(o))
    ensures Safe(st, Drop(o)) && Quiet(st, DoDrop(st, o), {})
  {
    StepInv(st, Drop(o));
    var st' := DoDrop(st, o);
    forall m, a | m in st'.maps && InRange(st.maps[m], a) ensures Readable(st, m) && Readable(st', m)
      && ReadByte(st', m, a) == ReadByte(st, m, a) {
      StepReads(st, Drop(o), m, a);
    }
  }

  lemma {:induction false} QuietCollapse(st: State, p: Id)
    requires Inv(st) && Enabled(st, Collapse(p))
    ensures Safe(st, Collapse(p)) && Quiet(st, DoCollapse(st, p), {}) && Refs(DoCollapse(st, p).objs) == Refs(st.objs)
  {
    StepInv(st, Collapse(p));
    var st' := DoCollapse(st, p);
    forall m, a | m in st'.maps && InRange(st.maps[m], a) ensures Readable(st, m) && Readable(st', m)
      && ReadByte(st', m, a) == ReadByte(st, m, a) {
      StepReads(st, Collapse(p), m, a);
    }
  }

  lemma {:induction false} QuietDemand(st: State, m: Id, o: Id)
    requires Inv(st) && Enabled(st, Demand(m, o))
    ensures ObjOk(st, m) && Quiet(st, DoDemand(st, m, o), {})
  {
    StepInv(st, Demand(m, o));
    var st' := DoDemand(st, m, o);
    forall n, a | n in st'.maps && InRange(st.maps[n], a) ensures Readable(st, n) && Readable(st', n)
      && ReadByte(st', n, a) == ReadByte(st, n, a) {
      StepReads(st, Demand(m, o), n, a);
    }
  }

  lemma {:induction false} QuietFault(st: State, m: Id, pg: nat, write: bool)
    requires Inv(st) && Enabled(st, Fault(m, pg, write))
    ensures Safe(st, Fault(m, pg, write)) && Quiet(st, DoFault(st, m, pg, write), {})
  {
    StepInv(st, Fault(m, pg, write));
    var st' := DoFault(st, m, pg, write);
    forall n, a | n in st'.maps && InRange(st.maps[n], a) ensures Readable(st, n) && Readable(st', n)
      && ReadByte(st', n, a) == ReadByte(st, n, a) {
      StepReads(st, Fault(m, pg, write), n, a);
    }
  }

  lemma {:induction false} QuietUnmap(st: State, m: Id)
    requires Inv(st) && Enabled(st, Unmap(m))
    ensures ObjOk(st, m) && Quiet(st, DoUnmap(st, m), {m})
  {
    StepInv(st, Unmap(m));
    var st' := DoUnmap(st, m);
    forall n, a | n in st'.maps && InRange(st.maps[n], a) ensures Readable(st, n) && Readable(st', n)
      && ReadByte(st', n, a) == ReadByte(st, n, a) {
      StepReads(st, Unmap(m), n, a);
    }
  }

  lemma {:induction false} QuietTwice(st: State, st1: State, st2: State, gone: set<Id>)
    requires Inv(st) && Quiet(st, st1, gone) && Quiet(st1, st2, {})
    ensures Quiet(st, st2, gone)
  {
    forall m, a | m in st2.maps && InRange(st.maps[m], a) && Readable(st, m) && Readable(st2, m)
      ensures ReadByte(st2, m, a) == ReadByte(st, m, a)
    {
      InvReadable(st1, m);
      assert InRange(st1.maps[m], a);
    }
  }

  lemma {:induction false} DropRefs(st: State, o: Id)
    requires Inv(st) && Enabled(st, Drop(o)) && Safe(st, Drop(o))
    ensures Refs(DoDrop(st, o).objs) < Refs(st.objs)
  {
    var a, b := st.objs, DoDrop(st, o).objs;
    assert (o, a[o].ref - 1) in Refs(a) && (o, a[o].ref - 1) !in Refs(b);
    forall r | r in Refs(b) ensures r in Refs(a) {}
  }

  /** The parent of a destroyed shadow is alive and holds the reference that is now pending. */
  lemma {:induction false} DropParent(st: State, o: Id)
    requires Inv(st) && o in st.loose && Safe(st, Drop(o))
    requires st.objs[o].ref == 1 && st.objs[o].Shadow? && st.objs[o].below.Some?
    ensures
      var b, st' := st.objs[o].below.value, DoDrop(st, o);
      && b in st'.loose && b in st'.objs && (st'.objs[b].Shadow? ==> st'.objs[b].below.Some?)
      && st'.loose - multiset{b} == st.loose - multiset{o}
  {
    assert LinkedAt(st.objs, o);
  }

  lemma {:induction false} QuietSelf(st: State)
    requires Inv(st)
    ensures Quiet(st, st, {})
  {}

  lemma {:induction false} MoveOne(left: Pages, have: Pages, pg: nat)
    requires pg in left
    ensures (left - {pg}) + (if pg in have then have else have[pg := left[pg]]) == left + have
    ensures (left - {pg}).Keys == left.Keys - {pg}
  {}

  function Relink(x: Obj, g: Id): Obj
    requires x.Shadow? && x.depth > 0
  {
    Shadow(x.pages, x.ref, x.size, Some(g), x.root, x.depth - 1, x.demand, x.kids)
  }

  function Unlink(x: Obj): Obj
    requires x.Shadow?
  {
    Shadow(x.pages, x.ref, x.size, None, x.root, x.depth, x.demand, [])
  }

  function Paged(objs: Objs, dst: Id, have: Pages, src: Id, left: Pages): Objs
    requires dst in objs && src in objs
  {
    objs[dst := SetPages(objs[dst], have)][src := SetPages(objs[src], left)]
  }

  lemma {:induction false} PagedAgain(objs: Objs, dst: Id, src: Id, have: Pages, left: Pages, have': Pages,
    left': Pages)
    requires dst in objs && src in objs && dst != src
    ensures Paged(Paged(objs, dst, have, src, left), dst, have', src, left') == Paged(objs, dst, have', src, left')
    ensures Paged(objs, dst, objs[dst].pages, src, objs[src].pages) == objs
  {}

  function Migrated(objs: Objs, dst: Id, src: Id): Objs
    requires dst in objs && src in objs
  {
    Paged(objs, dst, objs[src].pages + objs[dst].pages, src, map[])
  }

  function Detached(objs: Objs, p: Id, c: Id, g: Id): Objs
    requires p in objs && c in objs && g in objs && objs[p].Shadow? && objs[c].Shadow? && objs[c].depth > 0
  {
    objs[g := SetKids(objs[g], Without(Kids(objs[g]), p) + [c])][c := Relink(objs[c], g)][p := Unlink(objs[p])]
  }

  lemma {:induction false} CollapseObjs(st: State, p: Id)
    requires CanCollapse(st, p)
    ensures
      var c, g := st.objs[p].kids[0], st.objs[p].below.value;
      Detached(Migrated(st.objs, c, p), p, c, g) == DoCollapse(st, p).objs
  {}

  class Vm {
    var objs: Objs
    var maps: Maps
    ghost var loose: multiset<Id>

    ghost function St(): State
      reads this
    {
      State(objs, maps, loose)
    }

    /** vm_shadow_chain_get: references are taken hand over hand and all given back. */
    method ChainGet(o: Id, pg: nat) returns (h: Id)
      requires Linked(objs) && Live(objs, o) && objs[o].Shadow? && Live(objs, objs[o].below.value)
      modifies this
      ensures h == old(Holder(objs, objs[o].below.value, pg)) && objs == old(Filled(objs, h, pg))
      ensures maps == old(maps) && loose == old(loose)
    {
      assert LinkedAt(objs, o);
      ghost var start, first := objs, objs[o].below.value;
      var root := objs[o].root;
      h := objs[o].below.value;
      objs := objs[h := Recount(objs[h], 1, 0)];
      while h != root && pg !in objs[h].pages
        invariant Live(start, h) && objs == start[h := Recount(start[h], 1, 0)]
        invariant start[h].Shadow? ==> start[h].root == root
        invariant start[h].Root? ==> h == root
        invariant root in start && start[root].Root?
        invariant Holder(start, h, pg) == Holder(start, first, pg)
        invariant maps == old(maps) && loose == old(loose)
        decreases Rank(start, h)
      {
        assert LinkedAt(start, h);
        var next := objs[h].below.value;
        objs := objs[next := Recount(objs[next], 1, 0)];
        objs := objs[h := Recount(objs[h], -1, 0)];
        h := next;
      }
      objs := objs[h := Recount(objs[h], -1, 0)];
      assert objs == start;
      if h == root && pg !in objs[h].pages {
        objs := objs[h := SetPages(objs[h], objs[h].pages[pg := objs[h].fill(pg)])];
      }
    }

    /** vm_object_fault, with vm_generic_fault for a root and vm_shadow_fault for a shadow. */
    method Fault(m: Id, pg: nat, write: bool)
      requires Linked(objs) && Enabled(St(), Step.Fault(m, pg, write)) && Safe(St(), Step.Fault(m, pg, write))
      modifies this
      ensures St() == old(DoFault(St(), m, pg, write))
    {
      var o := maps[m].obj;
      var mapWrite := true;
      if pg !in objs[o].pages {
        if objs[o].Root? {
          objs := objs[o := SetPages(objs[o], objs[o].pages[pg := objs[o].fill(pg)])];
        } else {
          assert LinkedAt(objs, o);
          var h := ChainGet(o, pg);
          var n := Copied(objs[o].size, pg, objs[h].Shadow?);
          if write || n != PAGE {
            objs := objs[o := SetPages(objs[o], objs[o].pages[pg := Copy(objs[h].pages[pg], n)])];
          } else {
            mapWrite := false;
          }
        }
      }
      if mapWrite {
        maps := maps[m := Touch(maps[m], pg)];
      }
    }

    /** vm_demand_shadow: reuse the shadow or put a new one, id, on top of it. */
    method DemandShadow(o: Id, size: nat, id: Id) returns (r: Id)
      requires o in objs && id !in objs && (objs[o].Shadow? ==> objs[o].demand > 0)
      modifies this`objs
      ensures
        var x := Recount(old(objs)[o], 1, -1);
        if Reusable(old(objs)[o]) then r == o && objs == old(objs)[o := x]
        else r == id && objs == old(objs)[o := SetKids(x, Kids(x) + [id])][id := NewShadow(x, o, size)]
    {
      if objs[o].Shadow? && objs[o].demand == 1 && |objs[o].kids| == 0 {
        objs := objs[o := Recount(objs[o], 1, -1)];
        return o;
      }
      objs := objs[o := Recount(objs[o], 1, -1)];
      objs := objs[id := NewShadow(objs[o], o, size)];
      if objs[o].Shadow? {
        objs := objs[o := SetKids(objs[o], objs[o].kids + [id])];
      }
      r := id;
    }

    /** vm_object_pages_migrate: move every page the destination lacks, free the others. */
    method Migrate(dst: Id, src: Id)
      requires dst in objs && src in objs && dst != src
      modifies this`objs
      ensures objs == Migrated(old(objs), dst, src)
    {
      var left: Pages, have: Pages := objs[src].pages, objs[dst].pages;
      PagedAgain(objs, dst, src, have, left, have, left);
      while left.Keys != {}
        invariant objs == Paged(old(objs), dst, have, src, left)
        invariant left + have == old(objs)[src].pages + old(objs)[dst].pages
        decreases |left.Keys|
      {
        var pg :| pg in left.Keys;
        MoveOne(left, have, pg);
        ghost var left0, have0 := left, have;
        if pg !in have {
          have := have[pg := left[pg]];
        }
        left := left - {pg};
        PagedAgain(old(objs), dst, src, have0, left0, have, left);
        objs := Paged(objs, dst, have, src, left);
      }
      assert left == map[] && left + have == have;
    }

    /** vm_shadow_simplify, up to dropping the reference it frees. */
    method Simplify(p: Id) returns (collapsed: bool)
      requires Inv(St()) && p in objs && objs[p].Shadow? && objs[p].below.Some?
      modifies this
      ensures collapsed == Collapsible(old(objs)[p])
      ensures Inv(St()) && Quiet(old(St()), St(), {}) && Refs(objs) == Refs(old(objs))
      ensures maps == old(maps) && loose == if collapsed then old(loose) + multiset{p} else old(loose)
      ensures collapsed ==> old(CanCollapse(St(), p)) && St() == DoCollapse(old(St()), p)
      ensures !collapsed ==> St() == old(St())
      ensures NeatBut(old(St()), Some(p)) ==> Neat(St())
    {
      if |objs[p].kids| != 1 || objs[p].demand != 0 {
        if NeatBut(St(), Some(p)) { LeftNeat(St(), p); }
        return false;
      }
      CollapseReady(St(), p);
      QuietCollapse(St(), p);
      var c := objs[p].kids[0];
      var g := objs[p].below.value;
      Migrate(c, p);
      Detach(p, c, g);
      CollapseObjs(old(St()), p);
      if NeatBut(old(St()), Some(p)) { CollapseNeat(old(St()), p); }
      collapsed := true;
    }

    /** The relinking half of vm_shadow_simplify. */
    method Detach(p: Id, c: Id, g: Id)
      requires p in objs && c in objs && g in objs && objs[p].Shadow? && objs[c].Shadow? && p != c && p != g && c != g
      requires objs[c].depth > 0
      modifies this`objs, this`loose
      ensures loose == old(loose) + multiset{p}
      ensures objs == Detached(old(objs), p, c, g)
    {
      objs := objs[c := Relink(objs[c], g)];
      objs := objs[p := Unlink(objs[p])];
      if objs[g].Shadow? {
        objs := objs[g := SetKids(objs[g], Without(objs[g].kids, p) + [c])];
      }
      loose := loose + multiset{p};
    }

    /** One reference less; the last one takes the object off its parent's list and frees it. */
    method DropRef(o: Id) returns (below: Option<Id>)
      requires o in loose && Safe(St(), Drop(o))
      modifies this
      ensures St() == DoDrop(old(St()), o)
      ensures below == if old(objs)[o].ref > 1 || old(objs)[o].Root? then None else old(objs)[o].below
    {
      loose := loose - multiset{o};
      var x := objs[o];
      below := None;
      if x.ref > 1 {
        objs := objs[o := Recount(x, -1, 0)];
      } else if x.Root? || x.below.None? {
        objs := objs - {o};
      } else {
        below := x.below;
        var b := x.below.value;
        objs := objs[b := SetKids(objs[b], Without(Kids(objs[b]), o))] - {o};
        loose := loose + multiset{b};
      }
    }

    /** vm_object_unref and vm_shadow_destroy: give back one reference and everything that hangs on it alone. */
    method Unref(o: Id)
      requires Inv(St()) && o in loose
      modifies this
      ensures Quiet(old(St()), St(), {}) && maps == old(maps) && loose == old(loose) - multiset{o}
      ensures Neat(old(St())) ==> Neat(St())
      ensures Refs(objs) < Refs(old(objs))
      decreases Refs(objs), 0
    {
      ghost var st := St();
      QuietDrop(st, o);
      DropRefs(st, o);
      if Neat(st) { DropNeat(st, o); }
      var below := DropRef(o);
      if below.Some? {
        DropParent(st, o);
        DestroyParent(below.value);
        QuietTwice(st, DoDrop(st, o), St(), {});
      }
    }

    /** The end of vm_shadow_destroy: simplify the chain below and drop the reference to it. */
    method DestroyParent(b: Id)
      requires Inv(St()) && b in loose && b in objs && (objs[b].Shadow? ==> objs[b].below.Some?)
      modifies this
      ensures Quiet(old(St()), St(), {}) && maps == old(maps) && loose == old(loose) - multiset{b}
      ensures NeatBut(old(St()), Some(b)) ==> Neat(St())
      ensures Refs(objs) < Refs(old(objs))
      decreases Refs(objs), 2
    {
      ghost var st := St();
      SimplifyChain(b);
      ghost var st3 := St();
      Unref(b);
      QuietTwice(st, st3, St(), {});
    }

    /** vm_shadow_simplify, if there is a shadow to simplify. */
    method SimplifyChain(b: Id)
      requires Inv(St()) && b in loose && b in objs && (objs[b].Shadow? ==> objs[b].below.Some?)
      modifies this
      ensures Quiet(old(St()), St(), {}) && maps == old(maps) && loose == old(loose)
      ensures NeatBut(old(St()), Some(b)) ==> Neat(St())
      ensures Refs(objs) <= Refs(old(objs))
      decreases Refs(objs), 1
    {
      ghost var st := St();
      if objs[b].Shadow? {
        var collapsed := Simplify(b);
        if collapsed {
          ghost var st2 := St();
          Unref(b);
          QuietTwice(st, st2, St(), {});
        }
      } else {
        QuietSelf(st);
        if NeatBut(st, Some(b)) { LeftNeat(st, b); }
      }
    }

    /** vm_vas_demand_shadow, up to dropping the mapping's reference on the object it had. */
    method Redirect(m: Id, id: Id)
      requires Inv(St()) && Enabled(St(), Demand(m, id)) && ObjOk(St(), m)
      modifies this
      ensures St() == DoDemand(old(St()), m, id)
    {
      var o := maps[m].obj;
      var r := DemandShadow(o, maps[m].limit, id);
      maps := maps[m := Mapping(maps[m].vas, r, maps[m].first, maps[m].limit, false, maps[m].hw)];
      loose := loose + multiset{o};
    }

    /** vm_vas_demand_shadow */
    method DemandMap(m: Id, id: Id)
      requires Inv(St()) && Enabled(St(), Demand(m, id))
      modifies this
      ensures Quiet(old(St()), St(), {}) && loose == old(loose)
      ensures !maps[m].flagged && forall n | n in maps && n != m :: maps[n] == old(maps)[n]
      ensures Neat(old(St())) ==> Neat(St())
    {
      ghost var st := St();
      var o := maps[m].obj;
      QuietDemand(st, m, id);
      if Neat(st) { DemandNeat(st, m, id); }
      Redirect(m, id);
      ghost var st1 := St();
      Unref(o);
      QuietTwice(st, st1, St(), {});
    }

    /**
     vm_fault on a private mapping: afterwards the page is the mapping's own to write if it was
     asked for, and nobody has noticed.
     */
    method Access(m: Id, pg: nat, write: bool, id: Id)
      requires Inv(St()) && m in maps && maps[m].first <= pg && PAGE * pg < maps[m].limit && id !in objs
      modifies this
      ensures Quiet(old(St()), St(), {}) && loose == old(loose)
      ensures write ==> pg in maps[m].hw
      ensures Neat(old(St())) ==> Neat(St())
    {
      ghost var st := St();
      if maps[m].flagged {
        DemandMap(m, id);
      } else {
        QuietSelf(st);
      }
      ghost var st1 := St();
      QuietFault(st1, m, pg, write);
      if Neat(st1) { FaultNeat(st1, m, pg, write); }
      Fault(m, pg, write);
      QuietTwice(st, st1, St(), {});
    }

    /** vm_map_free, with vm_demand_shadow_unregister. */
    method FreeMap(m: Id)
      requires Inv(St()) && m in maps
      modifies this
      ensures Quiet(old(St()), St(), {m}) && loose == old(loose)
      ensures Neat(old(St())) ==> Neat(St())
    {
      ghost var st := St();
      QuietUnmap(st, m);
      var o, flagged := maps[m].obj, maps[m].flagged;
      maps := maps - {m};
      loose := loose + multiset{o};
      objs := objs[o := Recount(objs[o], 0, if flagged then -1 else 0)];
      assert St() == DoUnmap(st, m);
      if Neat(st) { UnmapNeat(st, m); }
      if flagged {
        SimplifyChain(o);
        QuietTwice(st, DoUnmap(st, m), St(), {m});
      }
      ghost var st3 := St();
      Unref(o);
      QuietTwice(st, st3, St(), {m});
    }

    /** vm_map_fork */
    method ForkOne(m: Id, n: Id, dst: nat)
      requires m in maps && maps[m].obj in objs
      modifies this`objs, this`maps
      ensures St() == ForkMap(old(St()), m, n, dst)
    {
      var r := maps[m];
      objs := objs[r.obj := Recount(objs[r.obj], 1, if r.flagged then 1 else 2)];
      maps := maps[m := Mapping(r.vas, r.obj, r.first, r.limit, true, {})]
                  [n := Mapping(dst, r.obj, r.first, r.limit, true, {})];
    }

    /** The loop of vm_vas_fork. */
    method ForkMappings(dst: nat, twins: seq<(Id, Id)>)
      requires AllIn(St()) && forall j :: 0 <= j < |twins| ==> twins[j].0 in maps
      modifies this
      ensures St() == ForkAll(old(St()), twins, dst)
    {
      ghost var st := St();
      var i := 0;
      while i < |twins|
        invariant 0 <= i <= |twins| && loose == st.loose
        invariant AllIn(St()) && forall j :: i <= j < |twins| ==> twins[j].0 in maps
        invariant ForkAll(St(), twins[i..], dst) == ForkAll(st, twins, dst)
      {
        assert twins[i..][0] == twins[i] && twins[i..][1..] == twins[i + 1..];
        ForkOne(twins[i].0, twins[i].1, dst);
        i := i + 1;
      }
    }

    /** vm_vas_fork over the mappings in address order; twins pairs each with its copy. */
    method ForkVas(src: nat, dst: nat, twins: seq<(Id, Id)>)
      requires Inv(St()) && ForkReady(St(), src, dst, twins)
      modifies this
      ensures Inv(St()) && Safe(old(St()), Fork(src, dst, twins)) && St() == ForkAll(old(St()), twins, dst)
      ensures Forked(old(maps), maps, src, dst, twins)
      ensures Neat(old(St())) ==> Neat(St())
      ensures forall m, a | m in maps && InRange(maps[m], a) && Readable(St(), m) ::
                var p := Parent(twins, m);
                Readable(old(St()), p) && ReadByte(St(), m, a) == ReadByte(old(St()), p, a)
    {
      ghost var st := St();
      StepInv(st, Fork(src, dst, twins));
      ForkMappings(dst, twins);
      ForkCopies(st, src, dst, twins);
      if Neat(st) { ForkNeat(st, twins, dst); }
      forall m, a | m in maps && InRange(maps[m], a)
        ensures Readable(St(), m) && Readable(st, Parent(twins, m))
          && ReadByte(St(), m, a) == ReadByte(st, Parent(twins, m), a)
      {
        StepReads(st, Fork(src, dst, twins), m, a);
      }
    }
  }
}
