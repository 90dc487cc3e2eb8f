/** Chains do not grow for nothing: what vm_shadow_simplify and vm_shadow_destroy are for. */
module CowLean {
  import opened CowState
  import opened CowSteps
  import opened CowInvariant
  import opened CowRun
  import opened Lists

  // ----- What is kept -----

  /** A live shadow is shadowed more than once, or not at all, or by a mapping to come. */
  ghost predicate LeanAt(st: State, o: Id)
    requires o in st.objs && st.objs[o].Shadow?
  {
    st.objs[o].below.Some? ==> !(|ShadowsOf(st.objs, o)| == 1 && FlaggedOn(st.maps, o) == {})
  }

  /** No shadow of its kind but perhaps b, and no object that nobody refers to. */
  ghost predicate NeatBut(st: State, b: Option<Id>) {
    && (forall o {:trigger LeanAt(st, o)} | o in st.objs && st.objs[o].Shadow? && b != Some(o) :: LeanAt(st, o))
    && (forall o | o in st.objs :: st.objs[o].ref > 0)
  }

  ghost predicate Neat(st: State) { NeatBut(st, None) }

  /** The same in terms of what the code looks at. */
  ghost predicate Tidy(objs: Objs, b: Option<Id>) {
    forall o | o in objs :: objs[o].ref > 0 && (b != Some(o) ==> !Collapsible(objs[o]))
  }

  lemma {:induction false} Listed(s: seq<Id>, t: set<Id>)
    requires Enumerates(s, t)
    ensures |s| == |t|
  {
    if s == [] {
      assert t == {};
    } else {
      assert s == [s[0]] + s[1..] && s[0] !in s[1..];
      Listed(s[1..], t - {s[0]});
    }
  }

  lemma {:induction false} LeanCollapsible(st: State, o: Id)
    requires Counted(st) && o in st.objs && st.objs[o].Shadow?
    ensures LeanAt(st, o) <==> !Collapsible(st.objs[o])
  {
    assert CountedAt(st, o);
    Listed(st.objs[o].kids, ShadowsOf(st.objs, o));
  }

  lemma {:induction false} NeatTidy(st: State, b: Option<Id>)
    requires Counted(st)
    ensures NeatBut(st, b) <==> Tidy(st.objs, b)
  {
    forall o | o in st.objs && st.objs[o].Shadow? ensures LeanAt(st, o) <==> !Collapsible(st.objs[o]) {
      LeanCollapsible(st, o);
    }
    if NeatBut(st, b) {
      forall o | o in st.objs ensures st.objs[o].ref > 0 && (b != Some(o) ==> !Collapsible(st.objs[o])) {
        if st.objs[o].Shadow? && b != Some(o) { assert LeanAt(st, o); }
      }
    }
  }

  // ----- Steps -----

  /** The parent of a destroyed shadow is the only one that may have to be simplified. */
  lemma {:induction false} DropNeat(st: State, o: Id)
    requires Inv(st) && Neat(st) && Enabled(st, Drop(o)) && Safe(st, Drop(o)) && Inv(DoDrop(st, o))
    ensures
      var x := st.objs[o];
      NeatBut(DoDrop(st, o), if x.ref > 1 || x.Root? then None else x.below)
  {
    var x, st' := st.objs[o], DoDrop(st, o);
    var b := if x.ref > 1 || x.Root? then None else x.below;
    NeatTidy(st, None);
    forall k | k in st'.objs ensures st'.objs[k].ref > 0 && (b != Some(k) ==> !Collapsible(st'.objs[k])) {
      assert st.objs[k].ref > 0 && !Collapsible(st.objs[k]);
    }
    NeatTidy(st', b);
  }

  /** Simplifying it puts things in order again. */
  lemma {:induction false} CollapseNeat(st: State, p: Id)
    requires Inv(st) && NeatBut(st, Some(p)) && CanCollapse(st, p) && Inv(DoCollapse(st, p))
    ensures Neat(DoCollapse(st, p))
  {
    var st', g := DoCollapse(st, p), st.objs[p].below.value;
    NeatTidy(st, Some(p));
    if st.objs[g].Shadow? {
      assert CountedAt(st, g) && p in ShadowsOf(st.objs, g);
      WithoutElems(st.objs[g].kids, p);
    }
    forall k | k in st'.objs ensures st'.objs[k].ref > 0 && !Collapsible(st'.objs[k]) {
      assert st.objs[k].ref > 0 && (k != p ==> !Collapsible(st.objs[k]));
    }
    NeatTidy(st', None);
  }

  lemma {:induction false} LeftNeat(st: State, p: Id)
    requires Inv(st) && NeatBut(st, Some(p)) && p in st.objs && !Collapsible(st.objs[p])
    ensures Neat(st)
  {
    NeatTidy(st, Some(p));
    NeatTidy(st, None);
  }

  /** A shadow that loses its last prospective shadow gets a real one or is reused. */
  lemma {:induction false} DemandNeat(st: State, m: Id, o: Id)
    requires Inv(st) && Neat(st) && Enabled(st, Demand(m, o)) && ObjOk(st, m) && Inv(DoDemand(st, m, o))
    ensures Neat(DoDemand(st, m, o))
  {
    var st' := DoDemand(st, m, o);
    NeatTidy(st, None);
    forall k | k in st'.objs ensures st'.objs[k].ref > 0 && !Collapsible(st'.objs[k]) {
      assert k in st.objs ==> st.objs[k].ref > 0 && !Collapsible(st.objs[k]);
    }
    NeatTidy(st', None);
  }

  lemma {:induction false} UnmapNeat(st: State, m: Id)
    requires Inv(st) && Neat(st) && Enabled(st, Unmap(m)) && ObjOk(st, m) && Inv(DoUnmap(st, m))
    ensures NeatBut(DoUnmap(st, m), if st.maps[m].flagged then Some(st.maps[m].obj) else None)
  {
    var st', b := DoUnmap(st, m), if st.maps[m].flagged then Some(st.maps[m].obj) else None;
    NeatTidy(st, None);
    forall k | k in st'.objs ensures st'.objs[k].ref > 0 && (b != Some(k) ==> !Collapsible(st'.objs[k])) {
      assert st.objs[k].ref > 0 && !Collapsible(st.objs[k]);
    }
    NeatTidy(st', b);
  }

  lemma {:induction false} FaultNeat(st: State, m: Id, pg: nat, write: bool)
    requires Inv(st) && Neat(st) && Enabled(st, Fault(m, pg, write)) && Safe(st, Fault(m, pg, write))
    requires Inv(DoFault(st, m, pg, write))
    ensures Neat(DoFault(st, m, pg, write))
  {
    var st' := DoFault(st, m, pg, write);
    FaultRefilled(st, m, pg, write);
    NeatTidy(st, None);
    forall k | k in st'.objs ensures st'.objs[k].ref > 0 && !Collapsible(st'.objs[k]) {
      assert SameLink(st.objs[k], st'.objs[k]);
      assert st.objs[k].ref > 0 && !Collapsible(st.objs[k]);
    }
    NeatTidy(st', None);
  }

  lemma {:induction false} ForkTidy(st: State, twins: seq<(Id, Id)>, dst: nat)
    requires forall i :: 0 <= i < |twins| ==> twins[i].0 in st.maps
    requires Tidy(st.objs, None) && forall m | m in st.maps :: st.maps[m].obj in st.objs
    ensures Tidy(ForkAll(st, twins, dst).objs, None)
    decreases |twins|
  {
    if twins != [] {
      var rest, st1 := twins[1..], ForkMap(st, twins[0].0, twins[0].1, dst);
      assert forall i :: 0 <= i < |rest| ==> rest[i] == twins[i + 1];
      forall k | k in st1.objs ensures st1.objs[k].ref > 0 && !Collapsible(st1.objs[k]) {
        assert st.objs[k].ref > 0 && !Collapsible(st.objs[k]);
      }
      ForkTidy(st1, rest, dst);
    }
  }

  lemma {:induction false} ForkNeat(st: State, twins: seq<(Id, Id)>, dst: nat)
    requires Inv(st) && Neat(st) && forall i :: 0 <= i < |twins| ==> twins[i].0 in st.maps
    requires (forall m | m in st.maps :: st.maps[m].obj in st.objs) && Inv(ForkAll(st, twins, dst))
    ensures Neat(ForkAll(st, twins, dst))
  {
    NeatTidy(st, None);
    ForkTidy(st, twins, dst);
    NeatTidy(ForkAll(st, twins, dst), None);
  }

  // ----- How many shadows there can be -----

  ghost function Shadows(objs: Objs): set<Id> { set o | o in objs && objs[o].Shadow? }

  ghost function ShadowsOfAll(objs: Objs, s: set<Id>): set<Id> {
    set x | x in objs && objs[x].Shadow? && objs[x].below.Some? && objs[x].below.value in s
  }

  /** Objects with two shadows each have twice as many shadows as they are. */
  lemma {:induction false} TwiceAsMany(objs: Objs, s: set<Id>)
    requires forall o | o in s :: |ShadowsOf(objs, o)| >= 2
    ensures |ShadowsOfAll(objs, s)| >= 2 * |s|
    decreases |s|
  {
    if s != {} {
      var o :| o in s;
      TwiceAsMany(objs, s - {o});
      assert ShadowsOfAll(objs, s) == ShadowsOfAll(objs, s - {o}) + ShadowsOf(objs, o);
      assert ShadowsOfAll(objs, s - {o}) !! ShadowsOf(objs, o);
    }
  }

  ghost function Mapped(maps: Maps): set<Id> { set m | m in maps :: maps[m].obj }

  lemma {:induction false} MappedSize(maps: Maps)
    ensures |Mapped(maps)| <= |maps|
    decreases |maps|
  {
    if maps != map[] {
      var m :| m in maps;
      var rest := maps - {m};
      assert maps.Keys == rest.Keys + {m} && |rest.Keys| == |maps.Keys| - 1;
      MappedSize(rest);
      assert Mapped(maps) == Mapped(rest) + {maps[m].obj};
    }
  }

  /** A shadow that nobody maps is shadowed at least twice. */
  lemma {:induction false} UnmappedForks(st: State, o: Id)
    requires Inv(st) && Neat(st) && st.loose == multiset{} && o in st.objs && st.objs[o].Shadow?
    requires MapsOn(st.maps, o) == {}
    ensures |ShadowsOf(st.objs, o)| >= 2 && st.objs[o].below.Some?
  {
    assert ReferencedAt(st, o) && CountedAt(st, o) && LinkedAt(st.objs, o) && LeanAt(st, o);
    assert FlaggedOn(st.maps, o) <= MapsOn(st.maps, o);
    Listed(st.objs[o].kids, ShadowsOf(st.objs, o));
  }

  /**
   When no operation is under way there are at most twice as many shadows as mappings, however many
   forks and exits there were: no chain grows for nothing.
   */
  lemma {:induction false} FewShadows(st: State)
    requires Inv(st) && Neat(st) && st.loose == multiset{}
    ensures |Shadows(st.objs)| <= 2 * |st.maps|
  {
    var all, mapped := Shadows(st.objs), Mapped(st.maps);
    var bare := all - mapped;
    forall o | o in bare ensures |ShadowsOf(st.objs, o)| >= 2 {
      assert MapsOn(st.maps, o) == {};
      UnmappedForks(st, o);
    }
    TwiceAsMany(st.objs, bare);
    Sized(ShadowsOfAll(st.objs, bare), all);
    MappedSize(st.maps);
    Sized(all - bare, mapped);
    assert |all| == |bare| + |all - bare| by { assert all == bare + (all - bare); }
  }

  lemma {:induction false} Sized(a: set<Id>, b: set<Id>)
    requires a <= b
    ensures |a| <= |b|
  {
    assert b == a + (b - a);
  }

  // ----- Nothing is left over -----

  ghost predicate Used(st: State) { forall o | o in st.objs :: st.objs[o].ref > 0 }

  lemma {:induction false} ForkUsed(st: State, twins: seq<(Id, Id)>, dst: nat)
    requires forall i :: 0 <= i < |twins| ==> twins[i].0 in st.maps
    requires Used(st) && forall m | m in st.maps :: st.maps[m].obj in st.objs
    ensures Used(ForkAll(st, twins, dst))
    decreases |twins|
  {
    if twins != [] {
      var rest := twins[1..];
      assert forall i :: 0 <= i < |rest| ==> rest[i] == twins[i + 1];
      ForkUsed(ForkMap(st, twins[0].0, twins[0].1, dst), rest, dst);
    }
  }

  lemma {:induction false} DropUsed(st: State, o: Id)
    requires Used(st) && Enabled(st, Drop(o)) && Safe(st, Drop(o))
    ensures Used(DoDrop(st, o))
  {}

  lemma {:induction false} CollapseUsed(st: State, p: Id)
    requires Used(st) && Enabled(st, Collapse(p)) && Safe(st, Collapse(p))
    ensures Used(DoCollapse(st, p))
  {}

  lemma {:induction false} DemandUsed(st: State, m: Id, o: Id)
    requires Used(st) && Enabled(st, Demand(m, o)) && Safe(st, Demand(m, o))
    ensures Used(DoDemand(st, m, o))
  {}

  lemma {:induction false} UsedNext(st: State, s: Step)
    requires Inv(st) && Used(st) && Enabled(st, s) && Safe(st, s)
    ensures Used(Next(st, s))
  {
    match s
    case Fault(m, pg, write) => FaultRefilled(st, m, pg, write);
    case Fork(_, dst, twins) => ForkUsed(st, twins, dst);
    case Drop(o) => DropUsed(st, o);
    case Collapse(p) => CollapseUsed(st, p);
    case Demand(m, o) => DemandUsed(st, m, o);
    case _ =>
  }

  lemma {:induction false} ReachableUsed(steps: seq<Step>)
    requires After(steps).Some?
    ensures Used(After(steps).value)
    decreases |steps|
  {
    if steps != [] {
      var front := steps[..|steps| - 1];
      ReachableInv(front);
      ReachableUsed(front);
      UsedNext(After(front).value, steps[|steps| - 1]);
    }
  }

  /** In every reachable state every object belongs to a mapping, a shadow, running code or an open file. */
  lemma {:induction false} NoLeak(steps: seq<Step>, o: Id)
    requires After(steps).Some? && o in After(steps).value.objs
    ensures
      var st := After(steps).value;
      MapsOn(st.maps, o) != {} || ShadowsOf(st.objs, o) != {} || o in st.loose || Held(st.objs[o]) > 0
  {
    ReachableUsed(steps);
    ReachableInv(steps);
    assert ReferencedAt(After(steps).value, o);
  }
}
