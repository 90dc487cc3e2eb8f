/** The steps of the copy-on-write machinery. */
module CowSteps {
  // Each one is a block of the source that runs under the locks of the objects it touches.

  import opened CowState
  import opened Lists

  datatype Step =
    | NewFile(o: Id, fill: nat -> Page)
    | MapFile(m: Id, o: Id, vas: nat, first: nat, limit: nat)
    | MapAnon(m: Id, o: Id, vas: nat, limit: nat)
    | Demand(m: Id, o: Id)
    | Fault(m: Id, pg: nat, write: bool)
    | Store(m: Id, a: nat, v: byte)
    | Split(m: Id, n: Id, pg: nat)
    | Trim(m: Id, pg: nat)
    | Unmap(m: Id)
    | Hold(o: Id)
    | Drop(o: Id)
    | Collapse(p: Id)
    | Fork(src: nat, dst: nat, twins: seq<(Id, Id)>)

  // ----- Updating an object -----

  function SetPages(x: Obj, pages: Pages): Obj {
    match x
    case Root(_, ref, fill, file, held) => Root(pages, ref, fill, file, held)
    case Shadow(_, ref, size, below, root, depth, demand, kids) => Shadow(pages, ref, size, below, root, depth,
      demand, kids)
  }

  /** Change the reference count and, of a shadow, the demand. */
  function Recount(x: Obj, ref: int, demand: int): Obj
    requires x.ref + ref >= 0 && (x.Shadow? ==> x.demand + demand >= 0)
  {
    match x
    case Root(pages, r, fill, file, held) => Root(pages, r + ref, fill, file, held)
    case Shadow(pages, r, size, below, root, depth, d, kids) =>
      Shadow(pages, r + ref, size, below, root, depth, d + demand, kids)
  }

  function SetKids(x: Obj, kids: seq<Id>): Obj {
    match x
    case Root(_, _, _, _, _) => x
    case Shadow(pages, ref, size, below, root, depth, demand, _) =>
      Shadow(pages, ref, size, below, root, depth, demand, kids)
  }

  function Kids(x: Obj): seq<Id> { if x.Shadow? then x.kids else [] }

  // ----- New mappings -----

  ghost function DoNewFile(st: State, o: Id, fill: nat -> Page): State {
    State(st.objs[o := Root(map[], 1, fill, true, 1)], st.maps, st.loose)
  }

  ghost function DoMapFile(st: State, m: Id, o: Id, vas: nat, first: nat, limit: nat): State
    requires o in st.objs
  {
    State(st.objs[o := Recount(st.objs[o], 1, 1)], st.maps[m := Mapping(vas, o, first, limit, true, {})], st.loose)
  }

  function Zero(pg: nat): Page { seq(PAGE, _ => 0) }

  ghost function DoMapAnon(st: State, m: Id, o: Id, vas: nat, limit: nat): State {
    State(st.objs[o := Root(map[], 1, Zero, false, 0)], st.maps[m := Mapping(vas, o, 0, limit, false, {})], st.loose)
  }

  // ----- Faults -----

  /** vm_page_cpy_partial: the first n bytes, the rest zero. */
  function Copy(p: Page, n: nat): Page
    requires n <= PAGE
  {
    p[..n] + seq(PAGE - n, _ => 0)
  }

  /** vm_shadow_chain_get: the first object from o downwards that holds the page, or the root. */
  ghost function Holder(objs: Objs, o: Id, pg: nat): (h: Id)
    requires Linked(objs) && Live(objs, o)
    ensures Live(objs, h) && Rank(objs, h) <= Rank(objs, o)
    ensures pg in objs[h].pages || objs[h].Root?
    decreases Rank(objs, o)
  {
    if objs[o].Root? || pg in objs[o].pages then o
    else
      assert LinkedAt(objs, o);
      Holder(objs, objs[o].below.value, pg)
  }

  /** vm_generic_fault: make a page of a root object resident. */
  ghost function Filled(objs: Objs, o: Id, pg: nat): Objs
    requires o in objs
  {
    if pg in objs[o].pages || objs[o].Shadow? then objs
    else objs[o := SetPages(objs[o], objs[o].pages[pg := objs[o].fill(pg)])]
  }

  /** How much of the page vm_shadow_fault copies: all of it when it comes from a shadow. */
  function Copied(size: nat, pg: nat, whole: bool): nat
    requires PAGE * pg < size
  {
    if whole || size - PAGE * pg >= PAGE then PAGE else size - PAGE * pg
  }

  /** The objects after a fault on page pg of o that has to copy the page. */
  ghost function Own(objs: Objs, o: Id, pg: nat, h: Id): Objs
    requires o in objs && h in objs && objs[o].Shadow? && PAGE * pg < objs[o].size
    requires pg in objs[h].pages || objs[h].Root?
  {
    var objs1 := Filled(objs, h, pg);
    objs1[o := SetPages(objs[o],
      objs[o].pages[pg := Copy(objs1[h].pages[pg], Copied(objs[o].size, pg, objs[h].Shadow?))])]
  }

  /** vm_fault on a mapping that is not flagged: vm_object_fault and vm_shadow_fault. */
  ghost function DoFault(st: State, m: Id, pg: nat, write: bool): State
    requires Linked(st.objs) && m in st.maps && Live(st.objs, st.maps[m].obj)
    requires st.objs[st.maps[m].obj].Shadow? ==> PAGE * pg < st.objs[st.maps[m].obj].size
  {
    var o := st.maps[m].obj;
    var x := st.objs[o];
    var touched := st.maps[m := Touch(st.maps[m], pg)];
    if pg in x.pages || x.Root? then State(Filled(st.objs, o, pg), touched, st.loose)
    else
      assert LinkedAt(st.objs, o);
      var h := Holder(st.objs, x.below.value, pg);
      if write || Copied(x.size, pg, st.objs[h].Shadow?) != PAGE then State(Own(st.objs, o, pg, h), touched, st.loose)
      else State(Filled(st.objs, h, pg), st.maps, st.loose)
  }

  function Touch(r: Mapping, pg: nat): Mapping { r.(hw := r.hw + {pg}) }

  ghost function DoStore(st: State, m: Id, a: nat, v: byte): State
    requires m in st.maps && st.maps[m].obj in st.objs && a / PAGE in st.objs[st.maps[m].obj].pages
  {
    var o := st.maps[m].obj;
    var pages := st.objs[o].pages;
    State(st.objs[o := SetPages(st.objs[o], pages[a / PAGE := pages[a / PAGE][a % PAGE := v]])], st.maps, st.loose)
  }

  // ----- Demand shadowing -----

  /** vm_shadow_needed, negated: the only prospective shadow may as well use the object itself. */
  predicate Reusable(x: Obj) { x.Shadow? && x.demand == 1 && |x.kids| == 0 }

  /** vm_shadow_init */
  function NewShadow(x: Obj, o: Id, size: nat): Obj {
    Shadow(map[], 1, size, Some(o), if x.Root? then o else x.root, if x.Root? then 1 else x.depth + 1, 0, [])
  }

  /** vm_vas_demand_shadow and vm_demand_shadow; the mapping's old reference is left to be dropped. */
  ghost function DoDemand(st: State, m: Id, o': Id): State
    requires m in st.maps && st.maps[m].obj in st.objs
    requires st.objs[st.maps[m].obj].Shadow? ==> st.objs[st.maps[m].obj].demand > 0
  {
    var r := st.maps[m];
    var o, x := r.obj, Recount(st.objs[r.obj], 1, -1);
    var loose := st.loose + multiset{o};
    if Reusable(st.objs[o]) then State(st.objs[o := x], st.maps[m := r.(flagged := false)], loose)
    else
      State(st.objs[o := SetKids(x, Kids(x) + [o'])][o' := NewShadow(x, o, r.limit)],
            st.maps[m := r.(obj := o', flagged := false)], loose)
  }

  // ----- Splitting, trimming and removing mappings -----

  ghost function DoSplit(st: State, m: Id, n: Id, pg: nat): State
    requires m in st.maps && st.maps[m].obj in st.objs
  {
    var r := st.maps[m];
    State(st.objs[r.obj := Recount(st.objs[r.obj], 1, 0)],
          st.maps[m := Head(r, pg)][n := r.(first := pg, hw := set k | k in r.hw && pg <= k)], st.loose)
  }

  ghost function Head(r: Mapping, pg: nat): Mapping { r.(limit := PAGE * pg, hw := set k | k in r.hw && k < pg) }

  ghost function DoTrim(st: State, m: Id, pg: nat): State
    requires m in st.maps
  {
    State(st.objs, st.maps[m := Head(st.maps[m], pg)], st.loose)
  }

  /** vm_map_free: the mapping's reference is left to be dropped. */
  ghost function DoUnmap(st: State, m: Id): State
    requires m in st.maps && st.maps[m].obj in st.objs
    requires st.maps[m].flagged && st.objs[st.maps[m].obj].Shadow? ==> st.objs[st.maps[m].obj].demand > 0
  {
    var o := st.maps[m].obj;
    State(st.objs[o := Recount(st.objs[o], 0, if st.maps[m].flagged then -1 else 0)], st.maps - {m},
      st.loose + multiset{o})
  }

  /** vm_object_ref by running code, for as long as it uses the object. */
  ghost function DoHold(st: State, o: Id): State
    requires o in st.objs
  {
    State(st.objs[o := Recount(st.objs[o], 1, 0)], st.maps, st.loose + multiset{o})
  }

  // ----- Forking -----

  /** vm_map_fork: flag the mapping m and give the address space dst a flagged copy n. */
  ghost function ForkMap(st: State, m: Id, n: Id, dst: nat): State
    requires m in st.maps && st.maps[m].obj in st.objs
  {
    var r := st.maps[m];
    State(st.objs[r.obj := Recount(st.objs[r.obj], 1, if r.flagged then 1 else 2)],
          st.maps[m := r.(flagged := true, hw := {})][n := Mapping(dst, r.obj, r.first, r.limit, true, {})],
          st.loose)
  }

  /** vm_vas_fork: one mapping after the other, each paired with the identity of its copy. */
  ghost function ForkAll(st: State, twins: seq<(Id, Id)>, dst: nat): State
    requires forall i :: 0 <= i < |twins| ==> twins[i].0 in st.maps && st.maps[twins[i].0].obj in st.objs
    decreases |twins|
  {
    if twins == [] then st
    else
      var st1 := ForkMap(st, twins[0].0, twins[0].1, dst);
      assert forall m | m in st.maps :: m in st1.maps && (m == twins[0].1 || st1.maps[m].obj == st.maps[m].obj);
      ForkAll(st1, twins[1..], dst)
  }

  // ----- References -----

  /** vm_object_unref; the last one runs vm_shadow_destroy, which leaves the reference below to be dropped. */
  ghost function DoDrop(st: State, o: Id): State
    requires o in st.objs && st.objs[o].ref > 0
    requires st.objs[o].Shadow? && st.objs[o].below.Some? ==> st.objs[o].below.value in st.objs
  {
    var x := st.objs[o];
    var loose := st.loose - multiset{o};
    if x.ref > 1 then State(st.objs[o := Recount(x, -1, 0)], st.maps, loose)
    else if x.Root? || x.below.None? then State(st.objs - {o}, st.maps, loose)
    else
      var b := x.below.value;
      State(st.objs[b := SetKids(st.objs[b], Without(Kids(st.objs[b]), o))] - {o}, st.maps, loose + multiset{b})
  }

  /** vm_shadow_can_simplify */
  predicate Collapsible(x: Obj) { x.Shadow? && x.below.Some? && |x.kids| == 1 && x.demand == 0 }

  /** vm_shadow_simplify: the pages of p move to its only child, which then shadows what p shadowed. */
  ghost function DoCollapse(st: State, p: Id): State
    requires p in st.objs && Collapsible(st.objs[p])
    requires st.objs[p].kids[0] in st.objs && st.objs[st.objs[p].kids[0]].Shadow?
      && st.objs[st.objs[p].kids[0]].depth > 0
    requires st.objs[p].below.value in st.objs
  {
    var x := st.objs[p];
    var c, g := x.kids[0], x.below.value;
    var y, z := st.objs[c], st.objs[g];
    State(st.objs[g := SetKids(z, Without(Kids(z), p) + [c])]
                 [c := Shadow(x.pages + y.pages, y.ref, y.size, Some(g), y.root, y.depth - 1, y.demand, y.kids)]
                 [p := Shadow(map[], x.ref, x.size, None, x.root, x.depth, x.demand, [])],
          st.maps, st.loose + multiset{p})
  }

  // ----- The machine -----

  ghost predicate Enabled(st: State, s: Step) {
    match s
    case NewFile(o, _) => o !in st.objs
    case MapFile(m, o, _, first, limit) =>
      m !in st.maps && o in st.objs && st.objs[o].Root? && st.objs[o].file && PAGE * first < limit
    case MapAnon(m, o, _, limit) => m !in st.maps && o !in st.objs && 0 < limit
    case Demand(m, o) => m in st.maps && st.maps[m].flagged && o !in st.objs
    case Fault(m, pg, _) => m in st.maps && !st.maps[m].flagged && st.maps[m].first <= pg
      && PAGE * pg < st.maps[m].limit
    case Store(m, a, _) => m in st.maps && InRange(st.maps[m], a) && a / PAGE in st.maps[m].hw
    case Split(m, n, pg) =>
      && m in st.maps && !st.maps[m].flagged && n !in st.maps
      && st.maps[m].first < pg && PAGE * pg < st.maps[m].limit
    case Trim(m, pg) => m in st.maps && st.maps[m].first < pg && PAGE * pg < st.maps[m].limit
    case Unmap(m) => m in st.maps
    case Hold(o) => o in st.objs
    case Drop(o) => o in st.loose
    case Collapse(p) => p in st.objs && Collapsible(st.objs[p])
    case Fork(src, dst, twins) => ForkReady(st, src, dst, twins)
  }

  /** twins lists every mapping of src once, with a fresh identity for its copy; dst is still empty. */
  ghost predicate ForkReady(st: State, src: nat, dst: nat, twins: seq<(Id, Id)>) {
    && src != dst
    && (forall m | m in st.maps :: st.maps[m].vas != dst)
    && (forall i ::
      0 <= i < |twins| ==> twins[i].0 in st.maps && st.maps[twins[i].0].vas == src && twins[i].1 !in st.maps)
    && (forall i, j :: 0 <= i < j < |twins| ==> twins[i].0 != twins[j].0 && twins[i].1 != twins[j].1)
    && (forall m | m in st.maps && st.maps[m].vas == src :: exists i :: 0 <= i < |twins| && twins[i].0 == m)
  }

  /**
   What the source asserts or dereferences in a step: a mapping's object can be read, a flagged
   mapping's object expects a shadow, a reference count is not zero, a shadow's links lead somewhere.
   */
  ghost predicate Safe(st: State, s: Step)
    requires Enabled(st, s)
  {
    match s
    case NewFile(_, _) => true
    case MapFile(_, _, _, _, _) => true
    case MapAnon(_, _, _, _) => true
    case Demand(m, _) => ObjOk(st, m)
    case Fault(m, _, _) => Linked(st.objs) && ObjOk(st, m)
    case Store(m, a, _) => ObjOk(st, m) && a / PAGE in st.objs[st.maps[m].obj].pages
    case Split(m, _, _) => ObjOk(st, m)
    case Trim(_, _) => true
    case Unmap(m) => ObjOk(st, m)
    case Hold(_) => true
    case Drop(o) =>
      && o in st.objs && st.objs[o].ref > 0
      && (st.objs[o].Shadow? && st.objs[o].below.Some? ==> st.objs[o].below.value in st.objs)
    case Collapse(p) =>
      && st.objs[p].below.value in st.objs && st.objs[p].kids[0] in st.objs
      && st.objs[st.objs[p].kids[0]].Shadow? && st.objs[st.objs[p].kids[0]].depth > 0
    case Fork(_, _, _) => forall m | m in st.maps :: st.maps[m].obj in st.objs
  }

  ghost predicate ObjOk(st: State, m: Id)
    requires m in st.maps
  {
    var o := st.maps[m].obj;
    && Live(st.objs, o)
    && (st.objs[o].Shadow? ==> st.maps[m].limit <= st.objs[o].size && (st.maps[m].flagged ==> st.objs[o].demand > 0))
  }

  ghost function Next(st: State, s: Step): State
    requires Enabled(st, s) && Safe(st, s)
  {
    match s
    case NewFile(o, fill) => DoNewFile(st, o, fill)
    case MapFile(m, o, vas, first, limit) => DoMapFile(st, m, o, vas, first, limit)
    case MapAnon(m, o, vas, limit) => DoMapAnon(st, m, o, vas, limit)
    case Demand(m, o) => DoDemand(st, m, o)
    case Fault(m, pg, write) => DoFault(st, m, pg, write)
    case Store(m, a, v) => DoStore(st, m, a, v)
    case Split(m, n, pg) => DoSplit(st, m, n, pg)
    case Trim(m, pg) => DoTrim(st, m, pg)
    case Unmap(m) => DoUnmap(st, m)
    case Hold(o) => DoHold(st, o)
    case Drop(o) => DoDrop(st, o)
    case Collapse(p) => DoCollapse(st, p)
    case Fork(_, dst, twins) => ForkAll(st, twins, dst)
  }

  /** In a state of the invariant no step trips over an assertion or a missing object. */
  lemma {:induction false} StepSafe(st: State, s: Step)
    requires Inv(st) && Enabled(st, s)
    ensures Safe(st, s)
  {
    match s
    case Demand(m, _) => Flagged(st, m);
    case Fault(m, _, _) => Flagged(st, m);
    case Store(m, _, _) => Flagged(st, m);
    case Split(m, _, _) => Flagged(st, m);
    case Unmap(m) => Flagged(st, m);
    case Drop(o) => Droppable(st, o);
    case Collapse(p) => CollapseReady(st, p);
    case Fork(_, _, _) => AllMapped(st);
    case _ =>
  }

  lemma {:induction false} Mapped(st: State, m: Id)
    requires Inv(st) && m in st.maps
    ensures PlacedAt(st, m)
  {}

  lemma {:induction false} AllMapped(st: State)
    requires Inv(st)
    ensures forall m | m in st.maps :: st.maps[m].obj in st.objs
  {
    forall m | m in st.maps ensures st.maps[m].obj in st.objs { Mapped(st, m); }
  }

  /** The kernel's assertion that a flagged mapping's shadow object expects a shadow. */
  lemma {:induction false} Flagged(st: State, m: Id)
    requires Inv(st) && m in st.maps
    ensures PlacedAt(st, m) && ObjOk(st, m)
  {
    assert PlacedAt(st, m);
    if st.maps[m].flagged {
      assert m in FlaggedOn(st.maps, st.maps[m].obj);
      assert st.objs[st.maps[m].obj].Shadow? ==> CountedAt(st, st.maps[m].obj);
    }
  }

  lemma {:induction false} Droppable(st: State, o: Id)
    requires Inv(st) && o in st.loose
    ensures o in st.objs && st.objs[o].ref > 0
    ensures st.objs[o].Shadow? && st.objs[o].below.Some? ==>
      st.objs[o].below.value in st.objs && st.objs[o].below.value != o
  {
    assert ReferencedAt(st, o);
    if st.objs[o].Shadow? {
      assert LinkedAt(st.objs, o);
    }
  }

  /** A collapsible shadow is shadowed by its one child and nothing else. */
  lemma {:induction false} CollapseReady(st: State, p: Id)
    requires Inv(st) && p in st.objs && Collapsible(st.objs[p])
    ensures st.objs[p].below.value in st.objs && st.objs[p].below.value != p
    ensures
      var c, g := st.objs[p].kids[0], st.objs[p].below.value;
      && ShadowsOf(st.objs, p) == {c} && c in st.objs && st.objs[c].Shadow? && st.objs[c].below == Some(p)
      && c != p && c != g && st.objs[c].depth > st.objs[p].depth
  {
    var x := st.objs[p];
    assert LinkedAt(st.objs, p);
    var c := x.kids[0];
    assert CountedAt(st, p);
    assert c in x.kids;
    assert LinkedAt(st.objs, c);
  }
}
