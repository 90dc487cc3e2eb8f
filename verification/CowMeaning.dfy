/** What every step does to what the mappings read. */
module CowMeaning {
  import opened CowState
  import opened CowSteps
  import opened CowInvariant
  import opened Lists

  // ----- Views that do not change -----

  ghost predicate SameRead(x: Obj, y: Obj) {
    SameBelow(x, y) && x.pages == y.pages && (x.Root? && y.Root? ==> x.fill == y.fill)
  }

  /** Objects a chain cannot leave, read the same before and after. */
  ghost predicate Untouched(a: Objs, b: Objs, d: set<Id>) {
    forall o | o in d ::
      && o in a && o in b && SameRead(a[o], b[o])
      && (a[o].Shadow? && a[o].below.Some? ==> a[o].below.value in d)
  }

  lemma {:induction false} ViewUntouched(a: Objs, b: Objs, d: set<Id>, o: Id, pg: nat)
    requires Linked(a) && Linked(b) && Untouched(a, b, d) && o in d && Live(a, o)
    ensures Live(b, o) && View(b, o, pg) == View(a, o, pg)
    decreases Rank(a, o)
  {
    if a[o].Shadow? {
      assert LinkedAt(a, o);
      if pg !in a[o].pages { ViewUntouched(a, b, d, a[o].below.value, pg); }
    }
  }

  lemma {:induction false} AllButTop(a: Objs, o: Id)
    requires Linked(a) && ShadowsOf(a, o) == {}
    ensures Untouched(a, a, a.Keys - {o})
  {
    forall x | x in a && x != o && a[x].Shadow? && a[x].below.Some? ensures a[x].below.value in a.Keys - {o} {
      assert LinkedAt(a, x) && x in ShadowsOf(a, a[x].below.value);
    }
  }

  /** An object nobody shadows can change without anybody else noticing. */
  lemma {:induction false} ViewOther(a: Objs, b: Objs, o: Id, x: Id, pg: nat)
    requires Linked(a) && Linked(b) && ShadowsOf(a, o) == {} && x != o && Live(a, x)
    requires forall y | y in a && y != o :: y in b && SameRead(a[y], b[y])
    ensures Live(b, x) && View(b, x, pg) == View(a, x, pg)
  {
    AllButTop(a, o);
    ViewUntouched(a, b, a.Keys - {o}, x, pg);
  }

  lemma {:induction false} ViewAll(a: Objs, b: Objs, x: Id, pg: nat)
    requires Linked(a) && Linked(b) && Live(a, x)
    requires forall y | y in a :: y in b && SameRead(a[y], b[y])
    ensures Live(b, x) && View(b, x, pg) == View(a, x, pg)
  {
    forall y | y in a && a[y].Shadow? && a[y].below.Some? ensures a[y].below.value in a { assert LinkedAt(a, y); }
    ViewUntouched(a, b, a.Keys, x, pg);
  }

  // ----- Faults -----

  lemma {:induction false} ViewFilled(a: Objs, h: Id, k: nat, x: Id, pg: nat)
    requires Linked(a) && h in a && Linked(Filled(a, h, k)) && Live(a, x)
    ensures Live(Filled(a, h, k), x) && View(Filled(a, h, k), x, pg) == View(a, x, pg)
    decreases Rank(a, x)
  {
    var b := Filled(a, h, k);
    if a[x].Shadow? {
      assert LinkedAt(a, x);
      assert b[x] == a[x];
      if pg !in a[x].pages { ViewFilled(a, h, k, a[x].below.value, pg); }
    }
  }

  lemma {:induction false} ViewHolder(a: Objs, o: Id, pg: nat)
    requires Linked(a) && Live(a, o)
    ensures
      var h := Holder(a, o, pg);
      && View(a, o, pg) == View(a, h, pg)
      && pg in Filled(a, h, pg)[h].pages && Filled(a, h, pg)[h].pages[pg] == View(a, o, pg)
    decreases Rank(a, o)
  {
    if !(a[o].Root? || pg in a[o].pages) {
      assert LinkedAt(a, o);
      ViewHolder(a, a[o].below.value, pg);
    }
  }

  /** The copy reads like the page below it, up to the size of the object. */
  lemma {:induction false} ViewOwn(a: Objs, o: Id, pg: nat, at: nat)
    requires Linked(a) && Live(a, o) && a[o].Shadow? && pg !in a[o].pages && PAGE * pg < a[o].size
    requires a[o].below.value in a && Live(a, a[o].below.value)
    requires at < PAGE && PAGE * pg + at < a[o].size
    ensures
      var b := Own(a, o, pg, Holder(a, a[o].below.value, pg));
      pg in b[o].pages && b[o].pages[pg][at] == View(a, o, pg)[at]
  {
    assert LinkedAt(a, o);
    ViewHolder(a, a[o].below.value, pg);
  }

  /** A fault changes nothing that any object reads below its size. */
  lemma {:induction false} FaultView(st: State, m: Id, k: nat, write: bool, x: Id, pg: nat, at: nat)
    requires Inv(st) && Enabled(st, Fault(m, k, write)) && Safe(st, Fault(m, k, write))
    requires Live(st.objs, x) && at < PAGE
    requires st.objs[x].Shadow? ==> PAGE * pg + at < st.objs[x].size
    ensures
      var b := DoFault(st, m, k, write).objs;
      Linked(b) && Live(b, x) && View(b, x, pg)[at] == View(st.objs, x, pg)[at]
  {
    var a, b, o := st.objs, DoFault(st, m, k, write).objs, st.maps[m].obj;
    FaultOwned(st, m, k, write);
    assert AloneAt(st, m);
    if k in a[o].pages || a[o].Root? {
      ViewFilled(a, o, k, x, pg);
    } else {
      assert LinkedAt(a, o);
      var h := Holder(a, a[o].below.value, k);
      FilledLinked(a, h, k);
      ViewFilled(a, h, k, x, pg);
      if b != Filled(a, h, k) {
        OwnView(a, o, k, h, x, pg, at);
      }
    }
  }

  lemma {:induction false} FilledLinked(a: Objs, h: Id, k: nat)
    requires Linked(a) && Clean(a) && h in a
    ensures Linked(Filled(a, h, k)) && SameShadows(a, Filled(a, h, k))
  {
    FilledRefilled(a, h, k);
    Relinked(a, Filled(a, h, k));
  }

  lemma {:induction false} OwnView(a: Objs, o: Id, k: nat, h: Id, x: Id, pg: nat, at: nat)
    requires Linked(a) && Clean(a) && Live(a, o) && a[o].Shadow? && k !in a[o].pages && PAGE * k < a[o].size
    requires a[o].below.value in a && Live(a, a[o].below.value) && h == Holder(a, a[o].below.value, k)
    requires ShadowsOf(a, o) == {} && Live(a, x) && at < PAGE
    requires x == o ==> PAGE * pg + at < a[o].size
    requires Linked(Own(a, o, k, h))
    ensures Live(Own(a, o, k, h), x) && View(Own(a, o, k, h), x, pg)[at] == View(a, x, pg)[at]
  {
    var a1, b := Filled(a, h, k), Own(a, o, k, h);
    FilledLinked(a, h, k);
    ViewFilled(a, h, k, x, pg);
    if x != o {
      ViewOther(a1, b, o, x, pg);
    } else if pg == k {
      ViewOwn(a, o, k, at);
    } else if pg !in a[o].pages {
      assert LinkedAt(a, o) && LinkedAt(b, o);
      var d := a[o].below.value;
      ViewFilled(a, h, k, d, pg);
      ViewOther(a1, b, o, d, pg);
    }
  }

  // ----- Structural steps -----

  /** Shadowing an object, or reusing it, does not change what anybody reads. */
  lemma {:induction false} DemandView(st: State, m: Id, o': Id, x: Id, pg: nat)
    requires Inv(st) && Enabled(st, Demand(m, o')) && ObjOk(st, m) && Linked(DoDemand(st, m, o').objs)
      && Live(st.objs, x)
    ensures
      var st' := DoDemand(st, m, o');
      && Live(st'.objs, x) && View(st'.objs, x, pg) == View(st.objs, x, pg)
      && Live(st'.objs, st'.maps[m].obj) && View(st'.objs, st'.maps[m].obj, pg) == View(st.objs, st.maps[m].obj, pg)
  {
    var st', o := DoDemand(st, m, o'), st.maps[m].obj;
    ViewAll(st.objs, st'.objs, x, pg);
    ViewAll(st.objs, st'.objs, o, pg);
  }

  lemma {:induction false} DropView(st: State, o: Id, x: Id, pg: nat)
    requires Linked(st.objs) && Referenced(st) && Enabled(st, Drop(o)) && Safe(st, Drop(o))
      && Linked(DoDrop(st, o).objs)
    requires Live(st.objs, x) && (x == o ==> st.objs[o].ref > 1)
    ensures Live(DoDrop(st, o).objs, x) && View(DoDrop(st, o).objs, x, pg) == View(st.objs, x, pg)
  {
    DropSameRead(st, o);
    if st.objs[o].ref > 1 {
      ViewAll(st.objs, DoDrop(st, o).objs, x, pg);
    } else {
      Unclaimed(st, o);
      ViewOther(st.objs, DoDrop(st, o).objs, o, x, pg);
    }
  }

  lemma {:induction false} DropSameRead(st: State, o: Id)
    requires Enabled(st, Drop(o)) && Safe(st, Drop(o))
    ensures forall y | y in st.objs && (y != o || st.objs[o].ref > 1) ::
              y in DoDrop(st, o).objs && SameRead(st.objs[y], DoDrop(st, o).objs[y])
  {}

  /** Collapsing p into its only child changes no page that any other object reads. */
  lemma {:induction false} CollapseView(st: State, p: Id, x: Id, pg: nat)
    requires Linked(st.objs) && CanCollapse(st, p) && Linked(DoCollapse(st, p).objs)
    requires Live(st.objs, x) && x != p
    ensures Live(DoCollapse(st, p).objs, x) && View(DoCollapse(st, p).objs, x, pg) == View(st.objs, x, pg)
    decreases Rank(st.objs, x)
  {
    var a, b := st.objs, DoCollapse(st, p).objs;
    var c, g := a[p].kids[0], a[p].below.value;
    if a[x].Shadow? && pg !in a[x].pages {
      assert LinkedAt(a, x) && LinkedAt(b, x);
      if x == c {
        assert LinkedAt(a, p);
        if pg !in a[p].pages { CollapseView(st, p, g, pg); }
      } else {
        assert x in ShadowsOf(a, a[x].below.value);
        CollapseView(st, p, a[x].below.value, pg);
      }
    }
  }

  lemma {:induction false} StoreView(st: State, m: Id, a: nat, v: byte, x: Id, pg: nat)
    requires Inv(st) && Enabled(st, Store(m, a, v)) && Safe(st, Store(m, a, v)) && Linked(DoStore(st, m, a, v).objs)
    requires Live(st.objs, x)
    ensures
      var b := DoStore(st, m, a, v).objs;
      && Live(b, x)
      && View(b, x, pg) == if x == st.maps[m].obj && pg == a / PAGE
        then View(st.objs, x, pg)[a % PAGE := v] else View(st.objs, x, pg)
  {
    var o, b := st.maps[m].obj, DoStore(st, m, a, v).objs;
    assert PlacedAt(st, m) && AloneAt(st, m);
    if x != o {
      ViewOther(st.objs, b, o, x, pg);
    } else if pg !in st.objs[o].pages && st.objs[o].Shadow? {
      assert LinkedAt(st.objs, o) && LinkedAt(b, o);
      ViewOther(st.objs, b, o, st.objs[o].below.value, pg);
    }
  }

  // ----- Forking -----

  /** The source mapping of m: itself, or the one it was copied from. */
  function Parent(twins: seq<(Id, Id)>, m: Id): (p: Id)
    ensures p == m || exists i :: 0 <= i < |twins| && twins[i] == (p, m)
  {
    if twins == [] then m
    else if twins[0].1 == m then assert twins[0] == (twins[0].0, m); twins[0].0
    else
      assert forall i :: 0 <= i < |twins| - 1 ==> twins[1..][i] == twins[i + 1];
      Parent(twins[1..], m)
  }

  ghost predicate AllIn(st: State) { forall m | m in st.maps :: st.maps[m].obj in st.objs }

  /** After a fork every mapping, old or copied, has the object and range of its parent. */
  lemma {:induction false} ForkMaps(st: State, src: nat, dst: nat, twins: seq<(Id, Id)>, m: Id)
    requires AllIn(st) && Todo(st.maps, src, dst, twins) && m in ForkAll(st, twins, dst).maps
    ensures
      var p, r := Parent(twins, m), ForkAll(st, twins, dst).maps[m];
      && p in st.maps && r.obj == st.maps[p].obj && r.first == st.maps[p].first && r.limit == st.maps[p].limit
      && r.vas == (if m in st.maps then st.maps[m].vas else dst) && (m in st.maps ==> p == m)
    decreases |twins|
  {
    if twins != [] {
      var rest := twins[1..];
      assert forall i :: 0 <= i < |rest| ==> rest[i] == twins[i + 1];
      ForkMaps(ForkMap(st, twins[0].0, twins[0].1, dst), src, dst, rest, m);
    }
  }

  lemma {:induction false} ForkObjs(st: State, twins: seq<(Id, Id)>, dst: nat)
    requires forall i :: 0 <= i < |twins| ==> twins[i].0 in st.maps
    requires AllIn(st)
    ensures forall o | o in st.objs ::
      o in ForkAll(st, twins, dst).objs && SameRead(st.objs[o], ForkAll(st, twins, dst).objs[o])
    decreases |twins|
  {
    if twins != [] {
      var rest := twins[1..];
      assert forall i :: 0 <= i < |rest| ==> rest[i] == twins[i + 1];
      ForkObjs(ForkMap(st, twins[0].0, twins[0].1, dst), rest, dst);
    }
  }

  ghost function Seconds(twins: seq<(Id, Id)>): set<Id> { set i | 0 <= i < |twins| :: twins[i].1 }

  lemma {:induction false} ForkUntouched(st: State, twins: seq<(Id, Id)>, dst: nat, m: Id)
    requires AllIn(st) && m in st.maps
    requires forall i :: 0 <= i < |twins| ==> twins[i].0 in st.maps && twins[i].0 != m && twins[i].1 != m
    ensures m in ForkAll(st, twins, dst).maps && ForkAll(st, twins, dst).maps[m] == st.maps[m]
    decreases |twins|
  {
    if twins != [] {
      var rest := twins[1..];
      assert forall i :: 0 <= i < |rest| ==> rest[i] == twins[i + 1];
      ForkUntouched(ForkMap(st, twins[0].0, twins[0].1, dst), rest, dst, m);
    }
  }

  lemma {:induction false} ForkKeys(st: State, twins: seq<(Id, Id)>, dst: nat)
    requires AllIn(st) && forall i :: 0 <= i < |twins| ==> twins[i].0 in st.maps
    ensures ForkAll(st, twins, dst).maps.Keys == st.maps.Keys + Seconds(twins)
    decreases |twins|
  {
    if twins != [] {
      var rest := twins[1..];
      assert forall i :: 0 <= i < |rest| ==> rest[i] == twins[i + 1];
      ForkKeys(ForkMap(st, twins[0].0, twins[0].1, dst), rest, dst);
      forall m | m in Seconds(twins) ensures m in Seconds(rest) + {twins[0].1} {
        var i :| 0 <= i < |twins| && twins[i].1 == m;
        if i > 0 { assert rest[i - 1].1 == m; }
      }
      forall m | m in Seconds(rest) + {twins[0].1} ensures m in Seconds(twins) {
        if m != twins[0].1 {
          var i :| 0 <= i < |rest| && rest[i].1 == m;
          assert twins[i + 1].1 == m;
        }
      }
    }
  }

  /** The copy has the object and the range of its original, and both ask for a shadow before a write. */
  ghost predicate Twinned(maps: Maps, maps': Maps, dst: nat, m: Id, n: Id) {
    && m in maps && m in maps' && n in maps'
    && maps'[m] == maps[m].(flagged := true, hw := {})
    && maps'[n] == Mapping(dst, maps[m].obj, maps[m].first, maps[m].limit, true, {})
  }

  lemma {:induction false} ForkCopy(st: State, src: nat, dst: nat, twins: seq<(Id, Id)>, i: nat)
    requires AllIn(st) && Todo(st.maps, src, dst, twins) && i < |twins|
    ensures Twinned(st.maps, ForkAll(st, twins, dst).maps, dst, twins[i].0, twins[i].1)
    decreases |twins|
  {
    var rest, st1 := twins[1..], ForkMap(st, twins[0].0, twins[0].1, dst);
    assert forall j :: 0 <= j < |rest| ==> rest[j] == twins[j + 1];
    if i == 0 {
      ForkUntouched(st1, rest, dst, twins[0].0);
      ForkUntouched(st1, rest, dst, twins[0].1);
    } else {
      ForkCopy(st1, src, dst, rest, i - 1);
    }
  }

  /**
   dst has exactly one copy of every mapping of src, with its object and range, and nothing else;
   the mappings of all other address spaces are as they were.
   */
  ghost predicate Forked(maps: Maps, maps': Maps, src: nat, dst: nat, twins: seq<(Id, Id)>) {
    && (forall i | 0 <= i < |twins| :: Twinned(maps, maps', dst, twins[i].0, twins[i].1))
    && (forall m :: m in maps && maps[m].vas == src <==> m in Firsts(twins))
    && (forall m :: m in maps' && maps'[m].vas == dst <==> m in Seconds(twins))
    && maps'.Keys == maps.Keys + Seconds(twins)
    && (forall m | m in maps && maps[m].vas != src :: m in maps' && maps'[m] == maps[m])
  }

  lemma {:induction false} ForkFirsts(st: State, src: nat, dst: nat, twins: seq<(Id, Id)>)
    requires ForkReady(st, src, dst, twins)
    ensures forall m :: m in st.maps && st.maps[m].vas == src <==> m in Firsts(twins)
    ensures Todo(st.maps, src, dst, twins)
  {}

  /** A fork gives the child every mapping of its parent. */
  lemma {:induction false} ForkCopies(st: State, src: nat, dst: nat, twins: seq<(Id, Id)>)
    requires AllIn(st) && ForkReady(st, src, dst, twins)
    ensures Forked(st.maps, ForkAll(st, twins, dst).maps, src, dst, twins)
  {
    ForkFirsts(st, src, dst, twins);
    ForkCopiesOf(st, src, dst, twins);
  }

  lemma {:induction false} ForkCopiesOf(st: State, src: nat, dst: nat, twins: seq<(Id, Id)>)
    requires AllIn(st) && Todo(st.maps, src, dst, twins)
    requires forall m :: m in st.maps && st.maps[m].vas == src <==> m in Firsts(twins)
    requires forall m | m in st.maps :: st.maps[m].vas != dst
    ensures Forked(st.maps, ForkAll(st, twins, dst).maps, src, dst, twins)
  {
    var maps, maps' := st.maps, ForkAll(st, twins, dst).maps;
    ForkKeys(st, twins, dst);
    forall i | 0 <= i < |twins| ensures Twinned(maps, maps', dst, twins[i].0, twins[i].1) {
      ForkCopy(st, src, dst, twins, i);
    }
    forall m | m in maps && maps[m].vas != src ensures m in maps' && maps'[m] == maps[m] {
      assert m !in Firsts(twins);
      ForkUntouched(st, twins, dst, m);
    }
    ForkSpaces(maps, maps', src, dst, twins);
  }

  lemma {:induction false} ForkSpaces(maps: Maps, maps': Maps, src: nat, dst: nat, twins: seq<(Id, Id)>)
    requires src != dst && maps'.Keys == maps.Keys + Seconds(twins)
    requires forall i | 0 <= i < |twins| :: Twinned(maps, maps', dst, twins[i].0, twins[i].1)
    requires forall m | m in maps :: maps[m].vas != dst && (maps[m].vas == src ==> m in Firsts(twins))
    requires forall m | m in maps && maps[m].vas != src :: m in maps' && maps'[m] == maps[m]
    ensures forall m :: m in maps' && maps'[m].vas == dst <==> m in Seconds(twins)
  {
    forall m | m in Seconds(twins) ensures m in maps' && maps'[m].vas == dst {
      var i :| 0 <= i < |twins| && twins[i].1 == m;
      assert Twinned(maps, maps', dst, twins[i].0, twins[i].1);
    }
    forall m | m in maps && m !in Seconds(twins) ensures m in maps' && maps'[m].vas != dst {
      if maps[m].vas == src {
        var i :| 0 <= i < |twins| && twins[i].0 == m;
        assert Twinned(maps, maps', dst, twins[i].0, twins[i].1);
      }
    }
  }

  lemma {:induction false} TwinParent(twins: seq<(Id, Id)>, i: nat)
    requires Distinct(twins) && i < |twins|
    ensures Parent(twins, twins[i].1) == twins[i].0
  {
    if i > 0 {
      assert twins[1..][i - 1] == twins[i];
      TwinParent(twins[1..], i - 1);
    }
  }

  // ----- Every step -----

  /** Mappings a step makes out of nothing. */
  predicate MadeBy(s: Step, m: Id) { (s.MapAnon? || s.MapFile?) && s.m == m }

  /** The mapping that m continues. */
  function Source(s: Step, m: Id): Id {
    match s
    case Split(k, n, _) => if m == n then k else m
    case Fork(_, _, twins) => Parent(twins, m)
    case _ => m
  }

  ghost predicate InMap(st: State, m: Id, a: nat) { m in st.maps && InRange(st.maps[m], a) }

  /** Whether m covers byte a after the step, if `before` tells whether the mapping it continues did. */
  predicate Covered(s: Step, m: Id, a: nat, before: bool) {
    match s
    case MapFile(k, _, _, first, limit) => if k == m then PAGE * first <= a < limit else before
    case MapAnon(k, _, _, limit) => if k == m then a < limit else before
    case Split(k, n, pg) => before && (m == n ==> PAGE * pg <= a) && (m == k && m != n ==> a < PAGE * pg)
    case Trim(k, pg) => before && (m == k ==> a < PAGE * pg)
    case Unmap(k) => before && m != k
    case _ => before
  }

  lemma {:induction false} ForkCovers(st: State, s: Step, m: Id, a: nat)
    requires Inv(st) && Enabled(st, s) && Safe(st, s) && s.Fork?
    ensures InMap(Next(st, s), m, a) <==> InMap(st, Source(s, m), a)
  {
    ForkKeys(st, s.twins, s.dst);
    var p := Parent(s.twins, m);
    if p in st.maps && p != m {
      var i :| 0 <= i < |s.twins| && s.twins[i] == (p, m);
      assert s.twins[i].1 in Seconds(s.twins);
    }
    if m in Next(st, s).maps { ForkMaps(st, s.src, s.dst, s.twins, m); }
  }

  lemma {:induction false} ObjectStepCovers(st: State, s: Step, m: Id, a: nat)
    requires Enabled(st, s) && Safe(st, s) && (s.Fault? || s.Drop? || s.Collapse? || s.Store? || s.Demand?)
    ensures InMap(Next(st, s), m, a) <==> InMap(st, m, a)
  {}

  /** Mappings come, go, and change their range exactly as the steps say. */
  lemma {:induction false} StepCovers(st: State, s: Step, m: Id, a: nat)
    requires Inv(st) && Enabled(st, s) && Safe(st, s)
    ensures InMap(Next(st, s), m, a) <==> Covered(s, m, a, InMap(st, Source(s, m), a))
  {
    if s.Fork? {
      ForkCovers(st, s, m, a);
    } else if s.Fault? || s.Drop? || s.Collapse? || s.Store? || s.Demand? {
      ObjectStepCovers(st, s, m, a);
    } else if s.Split? {
      assert PAGE * st.maps[s.m].first < PAGE * s.pg;
    }
  }

  lemma {:induction false} StepSpace(st: State, s: Step, m: Id)
    requires Inv(st) && Enabled(st, s) && Safe(st, s) && m in Next(st, s).maps && !MadeBy(s, m)
    ensures Source(s, m) in st.maps
    ensures Next(st, s).maps[m].vas == if s.Fork? && m !in st.maps then s.dst else st.maps[Source(s, m)].vas
  {
    if s.Fork? { ForkMaps(st, s.src, s.dst, s.twins, m); }
  }

  /** A mapping covers no more than the one it continues, in the same address space but for a fork's copies. */
  lemma {:induction false} StepSource(st: State, s: Step, m: Id)
    requires Inv(st) && Enabled(st, s) && Safe(st, s) && m in Next(st, s).maps && !MadeBy(s, m)
    ensures Source(s, m) in st.maps
    ensures forall a | InRange(Next(st, s).maps[m], a) :: InRange(st.maps[Source(s, m)], a)
    ensures Next(st, s).maps[m].vas == if s.Fork? && m !in st.maps then s.dst else st.maps[Source(s, m)].vas
  {
    StepSpace(st, s, m);
    forall a | InRange(Next(st, s).maps[m], a) ensures InRange(st.maps[Source(s, m)], a) { StepCovers(st, s, m, a); }
  }

  ghost predicate Readable(st: State, m: Id) { Linked(st.objs) && m in st.maps && Live(st.objs, st.maps[m].obj) }

  lemma {:induction false} InvReadable(st: State, m: Id)
    requires Inv(st) && m in st.maps
    ensures Readable(st, m)
  {
    Mapped(st, m);
  }

  ghost predicate Starts(st: State, s: Step, m: Id, a: nat) {
    && Inv(st) && Enabled(st, s) && Safe(st, s)
    && m in Next(st, s).maps && InRange(Next(st, s).maps[m], a) && Readable(Next(st, s), m)
    && Source(s, m) in st.maps && InRange(st.maps[Source(s, m)], a) && Readable(st, Source(s, m))
  }

  lemma {:induction false} FaultReads(st: State, s: Step, m: Id, a: nat)
    requires Starts(st, s, m, a) && s.Fault?
    ensures ReadByte(Next(st, s), m, a) == ReadByte(st, m, a)
  {
    Mapped(st, m);
    FaultView(st, s.m, s.pg, s.write, st.maps[m].obj, a / PAGE, a % PAGE);
  }

  lemma {:induction false} StoreReads(st: State, s: Step, m: Id, a: nat)
    requires Starts(st, s, m, a) && s.Store?
    ensures ReadByte(Next(st, s), m, a) == if m == s.m && a == s.a then s.v else ReadByte(st, m, a)
  {
    StoreView(st, s.m, s.a, s.v, st.maps[m].obj, a / PAGE);
    Mapped(st, s.m);
    assert AloneAt(st, s.m);
    assert a == PAGE * (a / PAGE) + a % PAGE && s.a == PAGE * (s.a / PAGE) + s.a % PAGE;
    if m != s.m && st.maps[m].obj == st.maps[s.m].obj {
      assert Disjoint(st.maps[m], st.maps[s.m]);
      assert a != s.a;
    }
  }

  lemma {:induction false} DropReads(st: State, s: Step, m: Id, a: nat)
    requires Starts(st, s, m, a) && s.Drop?
    ensures ReadByte(Next(st, s), m, a) == ReadByte(st, m, a)
  {
    var x := st.maps[m].obj;
    assert m in MapsOn(st.maps, x);
    if x == s.o && st.objs[x].ref <= 1 {
      Unclaimed(st, x);
      assert false;
    }
    DropView(st, s.o, x, a / PAGE);
  }

  lemma {:induction false} CollapseReads(st: State, s: Step, m: Id, a: nat)
    requires Starts(st, s, m, a) && s.Collapse?
    ensures ReadByte(Next(st, s), m, a) == ReadByte(st, m, a)
  {
    CollapseReady(st, s.p);
    CollapseUnmapped(st, s.p);
    assert m !in MapsOn(st.maps, s.p);
    CollapseView(st, s.p, st.maps[m].obj, a / PAGE);
  }

  lemma {:induction false} ForkReads(st: State, s: Step, m: Id, a: nat)
    requires Starts(st, s, m, a) && s.Fork?
    ensures ReadByte(Next(st, s), m, a) == ReadByte(st, Source(s, m), a)
  {
    ForkMaps(st, s.src, s.dst, s.twins, m);
    ForkObjs(st, s.twins, s.dst);
    ViewAll(st.objs, Next(st, s).objs, Next(st, s).maps[m].obj, a / PAGE);
  }

  /** Every other step only moves references, limits and identities around. */
  lemma {:induction false} OtherReads(st: State, s: Step, m: Id, a: nat)
    requires Starts(st, s, m, a) && !MadeBy(s, m)
    requires s.NewFile? || s.MapFile? || s.MapAnon? || s.Split? || s.Trim? || s.Unmap? || s.Hold?
    ensures ReadByte(Next(st, s), m, a) == ReadByte(st, Source(s, m), a)
  {
    ViewAll(st.objs, Next(st, s).objs, st.maps[Source(s, m)].obj, a / PAGE);
  }

  lemma {:induction false} NewReads(st: State, s: Step, m: Id, a: nat)
    requires Inv(st) && Enabled(st, s) && Safe(st, s) && MadeBy(s, m) && Readable(Next(st, s), m)
    ensures ReadByte(Next(st, s), m, a) == if s.MapFile? then st.objs[s.o].fill(a / PAGE)[a % PAGE] else 0
  {}

  /**
   A step changes what a mapping reads only by storing through that very mapping: no fault,
   demand shadow, collapse, drop, split or fork, and no store through any other mapping, of this
   address space or another, can be told from the bytes. A copied or split mapping starts with
   its source's bytes.
   */
  lemma {:induction false} StepReads(st: State, s: Step, m: Id, a: nat)
    requires Inv(st) && Enabled(st, s) && Safe(st, s) && Inv(Next(st, s))
    requires m in Next(st, s).maps && InRange(Next(st, s).maps[m], a)
    ensures Readable(Next(st, s), m)
    ensures MadeBy(s, m) ==>
      ReadByte(Next(st, s), m, a) == if s.MapFile? then st.objs[s.o].fill(a / PAGE)[a % PAGE] else 0
    ensures !MadeBy(s, m) ==> Readable(st, Source(s, m)) && InRange(st.maps[Source(s, m)], a)
    ensures !MadeBy(s, m) ==>
      ReadByte(Next(st, s), m, a) == if s == Store(m, a, if s.Store? then s.v else 0)
        then s.v else ReadByte(st, Source(s, m), a)
  {
    InvReadable(Next(st, s), m);
    if MadeBy(s, m) {
      NewReads(st, s, m, a);
    } else {
      StepCovers(st, s, m, a);
      InvReadable(st, Source(s, m));
      match s
      case Fault(_, _, _) => FaultReads(st, s, m, a);
      case Store(_, _, _) => StoreReads(st, s, m, a);
      case Demand(n, o) => DemandView(st, n, o, st.maps[m].obj, a / PAGE);
      case Drop(_) => DropReads(st, s, m, a);
      case Collapse(_) => CollapseReads(st, s, m, a);
      case Fork(_, _, _) => ForkReads(st, s, m, a);
      case _ => OtherReads(st, s, m, a);
    }
  }
}
