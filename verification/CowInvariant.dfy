/**
 Every step of the copy-on-write machinery keeps the invariant. There is a lemma per step and per
 conjunct where the step changes what the conjunct speaks of; the lemmas at the start say what
 stays true when a step only touches pages, counters or one mapping. The last one, StepInv, puts
 them together. Collapses and forks take the most work: a collapse moves a reference and a list
 entry at once, and a fork passes through states in which mappings of both sides share an object.
 */
module CowInvariant {
  import opened CowState
  import opened CowSteps
  import opened Lists

  // ----- Changes that leave the chains alone -----

  ghost predicate SameLink(x: Obj, y: Obj) {
    match x
    case Root(_, _, fill, file, held) => y.Root? && y.fill == fill && y.file == file && y.held == held
    case Shadow(_, _, size, below, root, depth, _, kids) =>
      && y.Shadow? && y.size == size && y.below == below && y.root == root && y.depth == depth && y.kids == kids
      && (below.None? ==> y.pages == x.pages && y.demand == x.demand)
  }

  ghost predicate SameLinks(a: Objs, b: Objs) {
    a.Keys == b.Keys && forall o | o in a :: SameLink(a[o], b[o])
  }

  lemma {:induction false} Relinked(a: Objs, b: Objs)
    requires Linked(a) && SameLinks(a, b)
    ensures Linked(b) && SameShadows(a, b)
  {
    forall o | o in b && b[o].Shadow? ensures LinkedAt(b, o) { assert LinkedAt(a, o); }
  }

  ghost predicate SameShadows(a: Objs, b: Objs) { forall o :: ShadowsOf(b, o) == ShadowsOf(a, o) }

  // ----- Counting mappings -----

  lemma {:induction false} CountPut(maps: Maps, m: Id, r: Mapping, o: Id)
    ensures |MapsOn(maps[m := r], o)| == |MapsOn(maps, o)| - One(m in maps && maps[m].obj == o) + One(r.obj == o)
    ensures |FlaggedOn(maps[m := r], o)| ==
            |FlaggedOn(maps, o)| - One(m in maps && maps[m].obj == o && maps[m].flagged) + One(r.obj == o && r.flagged)
  {
    Swap(MapsOn(maps, o), MapsOn(maps[m := r], o), m);
    Swap(FlaggedOn(maps, o), FlaggedOn(maps[m := r], o), m);
  }

  lemma {:induction false} CountCut(maps: Maps, m: Id, o: Id)
    requires m in maps
    ensures |MapsOn(maps - {m}, o)| == |MapsOn(maps, o)| - One(maps[m].obj == o)
    ensures |FlaggedOn(maps - {m}, o)| == |FlaggedOn(maps, o)| - One(maps[m].obj == o && maps[m].flagged)
  {
    Swap(MapsOn(maps, o), MapsOn(maps - {m}, o), m);
    Swap(FlaggedOn(maps, o), FlaggedOn(maps - {m}, o), m);
  }

  /** The references of o move with its mappings and pending drops, its demand with its flagged mappings. */
  ghost predicate Balanced(st: State, st': State, o: Id)
    requires o in st.objs && o in st'.objs
  {
    && st'.objs[o].ref - |MapsOn(st'.maps, o)| - st'.loose[o] == st.objs[o].ref - |MapsOn(st.maps, o)| - st.loose[o]
    && (st.objs[o].Shadow? && st'.objs[o].Shadow? ==>
          st'.objs[o].demand - |FlaggedOn(st'.maps, o)| == st.objs[o].demand - |FlaggedOn(st.maps, o)|)
  }

  ghost predicate Owned(st: State) { Linked(st.objs) && Referenced(st) && Counted(st) }

  lemma {:induction false} RecountedRefs(st: State, st': State)
    requires Referenced(st) && SameLinks(st.objs, st'.objs) && SameShadows(st.objs, st'.objs)
    requires forall o {:trigger Balanced(st, st', o)} | o in st.objs :: Balanced(st, st', o)
    requires forall o | o in st'.loose :: o in st'.objs
    ensures Referenced(st')
  {
    forall o | o in st'.objs ensures ReferencedAt(st', o) {
      assert ReferencedAt(st, o) && Balanced(st, st', o) && SameLink(st.objs[o], st'.objs[o]);
    }
  }

  lemma {:induction false} RecountedKids(st: State, st': State)
    requires Counted(st) && SameLinks(st.objs, st'.objs) && SameShadows(st.objs, st'.objs)
    requires forall o {:trigger Balanced(st, st', o)} | o in st.objs :: Balanced(st, st', o)
    ensures Counted(st')
  {
    forall o | o in st'.objs && st'.objs[o].Shadow? ensures CountedAt(st', o) {
      assert SameLink(st.objs[o], st'.objs[o]);
      assert CountedAt(st, o) && Balanced(st, st', o);
    }
  }

  lemma {:induction false} Recounted(st: State, st': State)
    requires Owned(st) && SameLinks(st.objs, st'.objs)
    requires forall o {:trigger Balanced(st, st', o)} | o in st.objs :: Balanced(st, st', o)
    requires forall o | o in st'.loose :: o in st'.objs
    ensures Owned(st') && SameShadows(st.objs, st'.objs)
  {
    Relinked(st.objs, st'.objs);
    RecountedRefs(st, st');
    RecountedKids(st, st');
  }

  // ----- Mappings that keep what the invariant asks of them -----

  predicate Shrunk(r: Mapping, r': Mapping) {
    && r'.vas == r.vas && r'.obj == r.obj && r'.first == r.first && r'.limit <= r.limit
    && r'.flagged == r.flagged
  }

  /** Objects keep their links and lose no page. */
  ghost predicate Grown(a: Objs, b: Objs) {
    forall o | o in a :: o in b && SameLink(a[o], b[o]) && a[o].pages.Keys <= b[o].pages.Keys
  }

  /** Every mapping outside `added` was there before and is no larger now. */
  ghost predicate Kept(maps: Maps, maps': Maps, added: set<Id>) {
    forall m | m in maps' && m !in added :: m in maps && Shrunk(maps[m], maps'[m])
  }

  lemma {:induction false} KeptPlaced(st: State, st': State, added: set<Id>)
    requires Placed(st) && Grown(st.objs, st'.objs) && Kept(st.maps, st'.maps, added)
    requires forall m | m in st'.maps && m in st.maps && m !in added :: st'.maps[m].hw <= st.maps[m].hw
    requires forall m | m in st'.maps && m in added :: PlacedAt(st', m)
    ensures Placed(st')
  {
    forall m | m in st'.maps ensures PlacedAt(st', m) {
      if m !in added {
        assert PlacedAt(st, m) && Shrunk(st.maps[m], st'.maps[m]);
        assert SameLink(st.objs[st.maps[m].obj], st'.objs[st.maps[m].obj]);
      }
    }
  }

  lemma {:induction false} KeptAlone(st: State, st': State, added: set<Id>)
    requires Placed(st) && Alone(st) && Kept(st.maps, st'.maps, added)
    requires SameShadows(st.objs, st'.objs)
    requires forall m | m in added && m in st'.maps ::
               (forall n | n in st'.maps && n !in added && st'.maps[n].obj == st'.maps[m].obj :: st'.maps[n].flagged)
    requires forall m | m in added && m in st'.maps && !st'.maps[m].flagged :: AloneAt(st', m)
    ensures Alone(st')
  {
    forall m | m in st'.maps && !st'.maps[m].flagged ensures AloneAt(st', m) {
      if m !in added {
        assert Shrunk(st.maps[m], st'.maps[m]);
        assert AloneAt(st, m) && PlacedAt(st, m);
        forall n | n in st'.maps && n != m && st'.maps[n].obj == st'.maps[m].obj
          ensures !st'.maps[n].flagged && st'.maps[n].vas == st'.maps[m].vas && Disjoint(st'.maps[n], st'.maps[m])
        {
          assert Shrunk(st.maps[n], st'.maps[n]);
        }
      }
    }
  }

  // ----- The steps that leave the chains alone -----

  lemma {:induction false} MapFileOwned(st: State, m: Id, o: Id, vas: nat, first: nat, limit: nat)
    requires Owned(st) && Enabled(st, MapFile(m, o, vas, first, limit))
    ensures
      var st' := DoMapFile(st, m, o, vas, first, limit);
      Owned(st') && SameShadows(st.objs, st'.objs)
  {
    var st' := DoMapFile(st, m, o, vas, first, limit);
    forall x | x in st.objs ensures Balanced(st, st', x) { CountPut(st.maps, m, st'.maps[m], x); }
    Recounted(st, st');
  }

  lemma {:induction false} MapFileInv(st: State, m: Id, o: Id, vas: nat, first: nat, limit: nat)
    requires Inv(st) && Enabled(st, MapFile(m, o, vas, first, limit))
    ensures Inv(DoMapFile(st, m, o, vas, first, limit))
  {
    var st' := DoMapFile(st, m, o, vas, first, limit);
    MapFileOwned(st, m, o, vas, first, limit);
    KeptPlaced(st, st', {m});
    forall n | n in st.maps && st.maps[n].obj == o ensures st.maps[n].flagged { assert PlacedAt(st, n); }
    KeptAlone(st, st', {m});
  }

  lemma {:induction false} TrimInv(st: State, m: Id, pg: nat)
    requires Inv(st) && Enabled(st, Trim(m, pg))
    ensures Inv(DoTrim(st, m, pg))
  {
    var st' := DoTrim(st, m, pg);
    forall x | x in st.objs ensures Balanced(st, st', x) { CountPut(st.maps, m, st'.maps[m], x); }
    Recounted(st, st');
    KeptPlaced(st, st', {});
    KeptAlone(st, st', {});
  }

  lemma {:induction false} UnmapInv(st: State, m: Id)
    requires Inv(st) && Enabled(st, Unmap(m)) && ObjOk(st, m)
    ensures Inv(DoUnmap(st, m))
  {
    var st' := DoUnmap(st, m);
    forall x | x in st.objs ensures Balanced(st, st', x) { CountCut(st.maps, m, x); }
    Recounted(st, st');
    KeptPlaced(st, st', {});
    KeptAlone(st, st', {});
  }

  lemma {:induction false} SplitOwned(st: State, m: Id, n: Id, pg: nat)
    requires Owned(st) && Enabled(st, Split(m, n, pg)) && ObjOk(st, m)
    ensures Owned(DoSplit(st, m, n, pg)) && SameShadows(st.objs, DoSplit(st, m, n, pg).objs)
  {
    var st' := DoSplit(st, m, n, pg);
    forall x | x in st.objs ensures Balanced(st, st', x) {
      CountPut(st.maps, m, st'.maps[m], x);
      CountPut(st.maps[m := st'.maps[m]], n, st'.maps[n], x);
    }
    Recounted(st, st');
  }

  lemma {:induction false} SplitInv(st: State, m: Id, n: Id, pg: nat)
    requires Inv(st) && Enabled(st, Split(m, n, pg)) && ObjOk(st, m)
    ensures Inv(DoSplit(st, m, n, pg))
  {
    SplitOwned(st, m, n, pg);
    assert PlacedAt(st, m);
    KeptPlaced(st, DoSplit(st, m, n, pg), {n});
    SplitAlone(st, m, n, pg);
  }

  lemma {:induction false} SplitAlone(st: State, m: Id, n: Id, pg: nat)
    requires Alone(st) && Enabled(st, Split(m, n, pg)) && st.maps[m].obj in st.objs
    requires SameShadows(st.objs, DoSplit(st, m, n, pg).objs)
    ensures Alone(DoSplit(st, m, n, pg))
  {
    var st' := DoSplit(st, m, n, pg);
    assert AloneAt(st, m);
    forall k | k in st'.maps && !st'.maps[k].flagged ensures AloneAt(st', k) {
      if k != n { assert AloneAt(st, k); }
    }
  }

  // ----- Faults and stores change pages only -----

  /** Pages come and change, none goes; the mappings keep everything but the pages they may write. */
  ghost predicate Repaged(st: State, st': State) {
    && SameLinks(st.objs, st'.objs) && Grown(st.objs, st'.objs) && st'.loose == st.loose
    && (forall o | o in st.objs ::
      st'.objs[o].ref == st.objs[o].ref && (st.objs[o].Shadow? ==> st'.objs[o].demand == st.objs[o].demand))
    && st'.maps.Keys == st.maps.Keys
    && (forall m | m in st.maps :: Shrunk(st.maps[m], st'.maps[m]) && st'.maps[m].limit == st.maps[m].limit)
  }

  lemma {:induction false} RepagedOwned(st: State, st': State)
    requires Owned(st) && Repaged(st, st')
    ensures Owned(st') && SameShadows(st.objs, st'.objs)
  {
    forall o | o in st.objs ensures Balanced(st, st', o) {
      assert MapsOn(st'.maps, o) == MapsOn(st.maps, o);
      assert FlaggedOn(st'.maps, o) == FlaggedOn(st.maps, o);
    }
    Recounted(st, st');
  }

  lemma {:induction false} StoreInv(st: State, m: Id, a: nat, v: byte)
    requires Inv(st) && Enabled(st, Store(m, a, v)) && Safe(st, Store(m, a, v))
    ensures Inv(DoStore(st, m, a, v))
  {
    var st' := DoStore(st, m, a, v);
    RepagedOwned(st, st');
    KeptPlaced(st, st', {});
    KeptAlone(st, st', {});
    assert PlacedAt(st, m);
  }

  /** Objects with the same links and counts, no page less, and files still clean. */
  ghost predicate Refilled(a: Objs, b: Objs) {
    && SameLinks(a, b) && Grown(a, b) && Clean(b)
    && forall o | o in a :: b[o].ref == a[o].ref && (a[o].Shadow? ==> b[o].demand == a[o].demand)
  }

  lemma {:induction false} FilledRefilled(objs: Objs, h: Id, pg: nat)
    requires Clean(objs) && h in objs
    ensures Refilled(objs, Filled(objs, h, pg))
    ensures objs[h].Root? ==> pg in Filled(objs, h, pg)[h].pages
  {}

  lemma {:induction false} OwnRefilled(objs: Objs, o: Id, pg: nat, h: Id)
    requires Clean(objs) && o in objs && h in objs && objs[o].Shadow? && objs[o].below.Some? && PAGE * pg < objs[o].size
    requires h != o && (pg in objs[h].pages || objs[h].Root?)
    ensures Refilled(objs, Own(objs, o, pg, h)) && pg in Own(objs, o, pg, h)[o].pages
  {
    FilledRefilled(objs, h, pg);
  }

  lemma {:induction false} FaultRefilled(st: State, m: Id, pg: nat, write: bool)
    requires Linked(st.objs) && Clean(st.objs) && Enabled(st, Fault(m, pg, write)) && Safe(st, Fault(m, pg, write))
    ensures
      var st' := DoFault(st, m, pg, write);
      && Refilled(st.objs, st'.objs)
      && (st'.maps == st.maps
        || (st'.maps == st.maps[m := Touch(st.maps[m], pg)] && pg in st'.objs[st.maps[m].obj].pages))
  {
    var o := st.maps[m].obj;
    if pg in st.objs[o].pages || st.objs[o].Root? {
      FilledRefilled(st.objs, o, pg);
    } else {
      assert LinkedAt(st.objs, o);
      var h := Holder(st.objs, st.objs[o].below.value, pg);
      FilledRefilled(st.objs, h, pg);
      OwnRefilled(st.objs, o, pg, h);
    }
  }

  lemma {:induction false} FaultOwned(st: State, m: Id, pg: nat, write: bool)
    requires Owned(st) && Clean(st.objs) && Enabled(st, Fault(m, pg, write)) && Safe(st, Fault(m, pg, write))
    ensures
      var st' := DoFault(st, m, pg, write);
      Owned(st') && SameShadows(st.objs, st'.objs)
  {
    FaultRefilled(st, m, pg, write);
    RepagedOwned(st, DoFault(st, m, pg, write));
  }

  lemma {:induction false} FaultPlaced(st: State, m: Id, pg: nat, write: bool)
    requires Linked(st.objs) && Placed(st) && Clean(st.objs) && Enabled(st, Fault(m, pg, write))
      && Safe(st, Fault(m, pg, write))
    ensures Placed(DoFault(st, m, pg, write))
  {
    var st' := DoFault(st, m, pg, write);
    FaultRefilled(st, m, pg, write);
    assert PlacedAt(st, m);
    assert SameLink(st.objs[st.maps[m].obj], st'.objs[st.maps[m].obj]);
    KeptPlaced(st, st', {m});
  }

  lemma {:induction false} FaultInv(st: State, m: Id, pg: nat, write: bool)
    requires Inv(st) && Enabled(st, Fault(m, pg, write)) && Safe(st, Fault(m, pg, write))
    ensures Inv(DoFault(st, m, pg, write))
  {
    FaultOwned(st, m, pg, write);
    FaultPlaced(st, m, pg, write);
    FaultRefilled(st, m, pg, write);
    KeptAlone(st, DoFault(st, m, pg, write), {});
  }


  // ----- New objects -----

  lemma {:induction false} NewRoot(a: Objs, o: Id, x: Obj)
    requires Linked(a) && o !in a && x.Root?
    ensures Linked(a[o := x]) && SameShadows(a, a[o := x]) && ShadowsOf(a, o) == {}
  {
    var b := a[o := x];
    forall p | p in b && b[p].Shadow? ensures LinkedAt(b, p) { assert LinkedAt(a, p); }
    forall p | p in a && a[p].Shadow? ensures a[p].below != Some(o) { assert LinkedAt(a, p); }
  }

  lemma {:induction false} NoMapsOn(st: State, o: Id)
    requires Placed(st) && o !in st.objs
    ensures MapsOn(st.maps, o) == {} && FlaggedOn(st.maps, o) == {}
  {
    forall m | m in st.maps ensures st.maps[m].obj != o { assert PlacedAt(st, m); }
  }

  lemma {:induction false} NewFileOwned(st: State, o: Id, fill: nat -> Page)
    requires Owned(st) && Placed(st) && o !in st.objs
    ensures Owned(DoNewFile(st, o, fill)) && SameShadows(st.objs, DoNewFile(st, o, fill).objs)
  {
    var st' := DoNewFile(st, o, fill);
    NewRoot(st.objs, o, st'.objs[o]);
    NoMapsOn(st, o);
    forall p | p in st'.objs ensures ReferencedAt(st', p) { if p != o { assert ReferencedAt(st, p); } }
    forall p | p in st'.objs && st'.objs[p].Shadow? ensures CountedAt(st', p) { assert CountedAt(st, p); }
  }

  lemma {:induction false} NewFileInv(st: State, o: Id, fill: nat -> Page)
    requires Inv(st) && o !in st.objs
    ensures Inv(DoNewFile(st, o, fill))
  {
    NewFileOwned(st, o, fill);
    KeptPlaced(st, DoNewFile(st, o, fill), {});
    KeptAlone(st, DoNewFile(st, o, fill), {});
  }

  lemma {:induction false} MapAnonOwned(st: State, m: Id, o: Id, vas: nat, limit: nat)
    requires Owned(st) && Placed(st) && Enabled(st, MapAnon(m, o, vas, limit))
    ensures
      var st' := DoMapAnon(st, m, o, vas, limit);
      Owned(st') && SameShadows(st.objs, st'.objs) && ShadowsOf(st.objs, o) == {}
  {
    var st' := DoMapAnon(st, m, o, vas, limit);
    NewRoot(st.objs, o, st'.objs[o]);
    NoMapsOn(st, o);
    forall p | p in st'.objs ensures ReferencedAt(st', p) {
      CountPut(st.maps, m, st'.maps[m], p);
      if p != o { assert ReferencedAt(st, p); }
    }
    forall p | p in st'.objs && st'.objs[p].Shadow? ensures CountedAt(st', p) {
      CountPut(st.maps, m, st'.maps[m], p);
      assert CountedAt(st, p);
    }
  }

  lemma {:induction false} MapAnonInv(st: State, m: Id, o: Id, vas: nat, limit: nat)
    requires Inv(st) && Enabled(st, MapAnon(m, o, vas, limit))
    ensures Inv(DoMapAnon(st, m, o, vas, limit))
  {
    var st' := DoMapAnon(st, m, o, vas, limit);
    MapAnonOwned(st, m, o, vas, limit);
    KeptPlaced(st, st', {m});
    NoMapsOn(st, o);
    forall n | n in st.maps ensures st.maps[n].obj != o { assert PlacedAt(st, n); }
    assert AloneAt(st', m);
    KeptAlone(st, st', {m});
  }

  lemma {:induction false} ListsAppend(s: seq<Id>, t: set<Id>, c: Id)
    requires Enumerates(s, t) && c !in t
    ensures Enumerates(s + [c], t + {c})
  {}

  // ----- Demand shadowing -----

  lemma {:induction false} ReuseInv(st: State, m: Id, o': Id)
    requires Inv(st) && Enabled(st, Demand(m, o')) && ObjOk(st, m) && Reusable(st.objs[st.maps[m].obj])
    ensures Inv(DoDemand(st, m, o'))
  {
    var st', o := DoDemand(st, m, o'), st.maps[m].obj;
    forall x | x in st.objs ensures Balanced(st, st', x) { CountPut(st.maps, m, st'.maps[m], x); }
    Recounted(st, st');
    assert PlacedAt(st, m);
    KeptPlaced(st, st', {m});
    OnlyFlagged(st, m);
    assert AloneAt(st', m);
    KeptAlone(st, st', {m});
  }

  /** The one flagged mapping of a shadow without shadows is its only mapping. */
  lemma {:induction false} OnlyFlagged(st: State, m: Id)
    requires Counted(st) && Alone(st) && m in st.maps && st.maps[m].flagged
    requires st.maps[m].obj in st.objs && Reusable(st.objs[st.maps[m].obj])
    ensures ShadowsOf(st.objs, st.maps[m].obj) == {}
    ensures forall n | n in st.maps && n != m :: st.maps[n].obj != st.maps[m].obj
  {
    var o := st.maps[m].obj;
    assert CountedAt(st, o);
    forall n | n in st.maps && n != m ensures st.maps[n].obj != o {
      if !st.maps[n].flagged {
        assert AloneAt(st, n);
      } else if st.maps[n].obj == o {
        Larger({m, n}, FlaggedOn(st.maps, o));
        assert false;
      }
    }
  }

  lemma {:induction false} Larger(s: set<Id>, t: set<Id>)
    requires s <= t
    ensures |s| <= |t|
  {
    assert t == s + (t - s);
  }

  lemma {:induction false} DemandLinked(st: State, m: Id, o': Id)
    requires Linked(st.objs) && Enabled(st, Demand(m, o')) && PlacedAt(st, m) && ObjOk(st, m)
    requires !Reusable(st.objs[st.maps[m].obj])
    ensures Linked(DoDemand(st, m, o').objs)
  {
    var objs := DoDemand(st, m, o').objs;
    forall p | p in objs && objs[p].Shadow? ensures LinkedAt(objs, p) {
      if p != o' {
        assert LinkedAt(st.objs, p);
      } else if objs[st.maps[m].obj].Shadow? {
        assert LinkedAt(st.objs, st.maps[m].obj);
      }
    }
  }

  ghost predicate SameBelow(x: Obj, y: Obj) { x.Shadow? == y.Shadow? && (x.Shadow? ==> x.below == y.below) }

  lemma {:induction false} AddShadow(a: Objs, b: Objs, o: Id, o': Id)
    requires o in a && o' !in a && b.Keys == a.Keys + {o'} && forall x | x in a :: SameBelow(a[x], b[x])
    requires b[o'].Shadow? && b[o'].below == Some(o) && ShadowsOf(a, o') == {}
    ensures ShadowsOf(b, o) == ShadowsOf(a, o) + {o'} && ShadowsOf(b, o') == {}
    ensures forall x | x != o && x != o' :: ShadowsOf(b, x) == ShadowsOf(a, x)
    ensures o' !in ShadowsOf(a, o) && |ShadowsOf(b, o)| == |ShadowsOf(a, o)| + 1
  {
    forall x | x in a ensures x in ShadowsOf(a, o') <==> x in ShadowsOf(b, o') { assert SameBelow(a[x], b[x]); }
    forall x ensures x in ShadowsOf(b, o) <==> x in ShadowsOf(a, o) + {o'} {
      assert x in a ==> SameBelow(a[x], b[x]);
    }
    assert ShadowsOf(b, o) == ShadowsOf(a, o) + {o'};
  }

  lemma {:induction false} DemandShadows(st: State, m: Id, o': Id)
    requires Linked(st.objs) && Enabled(st, Demand(m, o')) && ObjOk(st, m) && !Reusable(st.objs[st.maps[m].obj])
    ensures
      var objs, o := DoDemand(st, m, o').objs, st.maps[m].obj;
      && ShadowsOf(objs, o) == ShadowsOf(st.objs, o) + {o'} && ShadowsOf(objs, o') == {}
      && (forall x | x != o && x != o' :: ShadowsOf(objs, x) == ShadowsOf(st.objs, x))
      && o' !in ShadowsOf(st.objs, o) && |ShadowsOf(objs, o)| == |ShadowsOf(st.objs, o)| + 1
  {
    forall p | p in st.objs && st.objs[p].Shadow? ensures st.objs[p].below != Some(o') { assert LinkedAt(st.objs, p); }
    AddShadow(st.objs, DoDemand(st, m, o').objs, st.maps[m].obj, o');
  }

  lemma {:induction false} DemandRefs(st: State, m: Id, o': Id)
    requires Linked(st.objs) && Referenced(st) && Placed(st) && Enabled(st, Demand(m, o')) && ObjOk(st, m)
    requires !Reusable(st.objs[st.maps[m].obj])
    ensures Referenced(DoDemand(st, m, o'))
  {
    var st' := DoDemand(st, m, o');
    DemandShadows(st, m, o');
    NoMapsOn(st, o');
    forall x | x in st'.objs ensures ReferencedAt(st', x) {
      CountPut(st.maps, m, st'.maps[m], x);
      if x != o' { assert ReferencedAt(st, x); }
    }
  }

  lemma {:induction false} DemandKids(st: State, m: Id, o': Id)
    requires Linked(st.objs) && Counted(st) && Placed(st) && Enabled(st, Demand(m, o')) && ObjOk(st, m)
    requires !Reusable(st.objs[st.maps[m].obj])
    ensures Counted(DoDemand(st, m, o'))
  {
    var st' := DoDemand(st, m, o');
    DemandShadows(st, m, o');
    NoMapsOn(st, o');
    forall x | x in st'.objs && st'.objs[x].Shadow? ensures CountedAt(st', x) {
      CountPut(st.maps, m, st'.maps[m], x);
      if x != o' { assert CountedAt(st, x); }
      if x == st.maps[m].obj { ListsAppend(st.objs[x].kids, ShadowsOf(st.objs, x), o'); }
    }
  }

  lemma {:induction false} DemandPlaced(st: State, m: Id, o': Id)
    requires Placed(st) && Enabled(st, Demand(m, o')) && ObjOk(st, m) && !Reusable(st.objs[st.maps[m].obj])
    ensures Placed(DoDemand(st, m, o'))
  {
    var st' := DoDemand(st, m, o');
    forall n | n in st'.maps ensures PlacedAt(st', n) { assert PlacedAt(st, n); }
  }

  lemma {:induction false} DemandAlone(st: State, m: Id, o': Id)
    requires Linked(st.objs) && Placed(st) && Alone(st) && Enabled(st, Demand(m, o')) && ObjOk(st, m)
    requires !Reusable(st.objs[st.maps[m].obj])
    ensures Alone(DoDemand(st, m, o'))
  {
    var st' := DoDemand(st, m, o');
    DemandShadows(st, m, o');
    forall n | n in st.maps ensures st.maps[n].obj != o' { assert PlacedAt(st, n); }
    forall n | n in st'.maps && !st'.maps[n].flagged ensures AloneAt(st', n) {
      if n != m { assert AloneAt(st, n); }
    }
  }

  lemma {:induction false} DemandInv(st: State, m: Id, o': Id)
    requires Inv(st) && Enabled(st, Demand(m, o')) && ObjOk(st, m)
    ensures Inv(DoDemand(st, m, o'))
  {
    if Reusable(st.objs[st.maps[m].obj]) {
      ReuseInv(st, m, o');
    } else {
      assert PlacedAt(st, m);
      DemandLinked(st, m, o');
      DemandRefs(st, m, o');
      DemandKids(st, m, o');
      DemandPlaced(st, m, o');
      DemandAlone(st, m, o');
    }
  }


  // ----- Dropping references -----

  lemma {:induction false} WithoutLists(s: seq<Id>, t: set<Id>, o: Id)
    requires Enumerates(s, t) && o in t
    ensures Enumerates(Without(s, o), t - {o})
  {
    assert o in s;
    WithoutElems(s, o);
  }

  /** A root whose last reference goes is nobody's root. */
  lemma {:induction false} RootUnused(objs: Objs, o: Id, p: Id)
    requires Linked(objs) && ShadowsOf(objs, o) == {} && Live(objs, p) && objs[p].Shadow?
    ensures objs[p].root != o
    decreases Rank(objs, p)
  {
    assert LinkedAt(objs, p);
    var b := objs[p].below.value;
    assert p in ShadowsOf(objs, b);
    if objs[b].Shadow? { RootUnused(objs, o, b); }
  }

  lemma {:induction false} DropLinks(objs: Objs, o: Id)
    requires Linked(objs) && o in objs && ShadowsOf(objs, o) == {}
    requires objs[o].Shadow? ==> objs[o].below.None?
    ensures Linked(objs - {o}) && SameShadows(objs, objs - {o})
  {
    var b := objs - {o};
    forall p | p in b && b[p].Shadow? ensures LinkedAt(b, p) {
      assert LinkedAt(objs, p);
      if b[p].below.Some? {
        RootUnused(objs, o, p);
        assert p in ShadowsOf(objs, b[p].below.value);
      }
    }
  }

  /** A last reference that is pending is the only claim on the object. */
  lemma {:induction false} Unclaimed(st: State, o: Id)
    requires Referenced(st) && o in st.loose && st.objs[o].ref == 1
    ensures MapsOn(st.maps, o) == {} && ShadowsOf(st.objs, o) == {} && st.loose[o] == 1
  {
    assert ReferencedAt(st, o);
  }

  lemma {:induction false} DropOneInv(st: State, o: Id)
    requires Inv(st) && o in st.loose && o in st.objs && st.objs[o].ref > 1
    ensures Inv(State(st.objs[o := Recount(st.objs[o], -1, 0)], st.maps, st.loose - multiset{o}))
  {
    var st' := State(st.objs[o := Recount(st.objs[o], -1, 0)], st.maps, st.loose - multiset{o});
    forall x | x in st.objs ensures Balanced(st, st', x) {}
    Recounted(st, st');
    KeptPlaced(st, st', {});
    KeptAlone(st, st', {});
  }

  lemma {:induction false} GonePlaced(st: State, st': State, o: Id)
    requires Placed(st) && st'.maps == st.maps && MapsOn(st.maps, o) == {}
    requires forall x | x in st.objs && x != o :: x in st'.objs && SameServe(st.objs[x], st'.objs[x])
    ensures Placed(st')
  {
    forall m | m in st'.maps ensures PlacedAt(st', m) {
      assert PlacedAt(st, m);
      assert m !in MapsOn(st.maps, o);
    }
  }

  /** What a mapping needs of its object. */
  predicate SameServe(x: Obj, y: Obj) {
    && x.Shadow? == y.Shadow? && x.pages.Keys <= y.pages.Keys
    && (x.Shadow? ==> (x.below.Some? ==> y.below.Some?) && x.size == y.size)
    && (x.Root? ==> x.file == y.file)
  }

  lemma {:induction false} DropRootInv(st: State, o: Id)
    requires Inv(st) && o in st.loose && o in st.objs && st.objs[o].ref == 1
    requires st.objs[o].Shadow? ==> st.objs[o].below.None?
    ensures Inv(State(st.objs - {o}, st.maps, st.loose - multiset{o}))
  {
    var st' := State(st.objs - {o}, st.maps, st.loose - multiset{o});
    Unclaimed(st, o);
    DropLinks(st.objs, o);
    forall x | x in st'.objs ensures ReferencedAt(st', x) { assert ReferencedAt(st, x); }
    forall x | x in st'.objs && st'.objs[x].Shadow? ensures CountedAt(st', x) { assert CountedAt(st, x); }
    GonePlaced(st, st', o);
    KeptAlone(st, st', {});
  }

  ghost predicate LastDrop(st: State, o: Id) {
    && o in st.loose && o in st.objs && st.objs[o].ref == 1 && st.objs[o].Shadow? && st.objs[o].below.Some?
    && st.objs[o].below.value in st.objs
  }

  lemma {:induction false} DestroyLinks(st: State, o: Id)
    requires Linked(st.objs) && LastDrop(st, o) && ShadowsOf(st.objs, o) == {}
    ensures
      var objs, b := DoDrop(st, o).objs, st.objs[o].below.value;
      && Linked(objs) && b != o && o in ShadowsOf(st.objs, b)
      && (forall x :: ShadowsOf(objs, x) == ShadowsOf(st.objs, x) - {o})
      && (forall x | x != b :: o !in ShadowsOf(st.objs, x))
  {
    var objs := DoDrop(st, o).objs;
    assert LinkedAt(st.objs, o);
    forall p | p in objs && objs[p].Shadow? ensures LinkedAt(objs, p) {
      assert LinkedAt(st.objs, p);
      if objs[p].below.Some? { assert p in ShadowsOf(st.objs, objs[p].below.value); }
    }
  }

  lemma {:induction false} DestroyRefs(st: State, o: Id)
    requires Linked(st.objs) && Referenced(st) && LastDrop(st, o)
    ensures Referenced(DoDrop(st, o))
  {
    var st', b := DoDrop(st, o), st.objs[o].below.value;
    Unclaimed(st, o);
    DestroyLinks(st, o);
    forall x | x in st'.objs ensures ReferencedAt(st', x) {
      assert ReferencedAt(st, x);
      Swap(ShadowsOf(st.objs, x), ShadowsOf(st'.objs, x), o);
    }
  }

  lemma {:induction false} DestroyKids(st: State, o: Id)
    requires Linked(st.objs) && Counted(st) && LastDrop(st, o) && ShadowsOf(st.objs, o) == {}
    ensures Counted(DoDrop(st, o))
  {
    var st', b := DoDrop(st, o), st.objs[o].below.value;
    DestroyLinks(st, o);
    forall x | x in st'.objs && st'.objs[x].Shadow? ensures CountedAt(st', x) {
      assert CountedAt(st, x);
      if x == b { WithoutLists(st.objs[b].kids, ShadowsOf(st.objs, b), o); }
    }
  }

  lemma {:induction false} DestroyAlone(st: State, o: Id)
    requires Linked(st.objs) && Alone(st) && LastDrop(st, o) && ShadowsOf(st.objs, o) == {} && MapsOn(st.maps, o) == {}
    ensures Alone(DoDrop(st, o))
  {
    var st' := DoDrop(st, o);
    DestroyLinks(st, o);
    forall m | m in st'.maps && !st'.maps[m].flagged ensures AloneAt(st', m) { assert AloneAt(st, m); }
  }

  lemma {:induction false} DropInv(st: State, o: Id)
    requires Inv(st) && Enabled(st, Drop(o)) && Safe(st, Drop(o))
    ensures Inv(DoDrop(st, o))
  {
    if st.objs[o].ref > 1 {
      DropOneInv(st, o);
    } else if st.objs[o].Root? || st.objs[o].below.None? {
      DropRootInv(st, o);
    } else {
      Unclaimed(st, o);
      DestroyRefs(st, o);
      DestroyKids(st, o);
      DestroyLinks(st, o);
      GonePlaced(st, DoDrop(st, o), o);
      DestroyAlone(st, o);
    }
  }

  // ----- Collapsing a chain -----

  ghost predicate CanCollapse(st: State, p: Id) {
    && p in st.objs && Collapsible(st.objs[p]) && st.objs[p].below.value in st.objs && st.objs[p].below.value != p
    && var c, g := st.objs[p].kids[0], st.objs[p].below.value;
       && ShadowsOf(st.objs, p) == {c} && c in st.objs && st.objs[c].Shadow? && st.objs[c].below == Some(p)
       && c != p && c != g && st.objs[c].depth > st.objs[p].depth
  }

  /** Depths still fall along every chain although only the child's depth changes. */
  lemma {:induction false} CollapseLinks(st: State, p: Id)
    requires Linked(st.objs) && CanCollapse(st, p)
    ensures Linked(DoCollapse(st, p).objs)
  {
    var objs := DoCollapse(st, p).objs;
    var c, g := st.objs[p].kids[0], st.objs[p].below.value;
    assert LinkedAt(st.objs, p) && LinkedAt(st.objs, c);
    forall x | x in objs && objs[x].Shadow? ensures LinkedAt(objs, x) {
      assert LinkedAt(st.objs, x);
      if objs[x].below.Some? && x != c { assert x in ShadowsOf(st.objs, objs[x].below.value); }
    }
  }

  lemma {:induction false} SameAfterCollapse(st: State, p: Id, k: Id)
    requires CanCollapse(st, p) && k in st.objs && k != p && k != st.objs[p].kids[0]
    ensures
      var objs := DoCollapse(st, p).objs;
      && k in objs && (objs[k].Shadow? <==> st.objs[k].Shadow?)
      && (objs[k].Shadow? ==> objs[k].below == st.objs[k].below)
  {}

  lemma {:induction false} CollapseShadowsOf(st: State, p: Id, x: Id)
    requires CanCollapse(st, p)
    ensures
      var c, g, s := st.objs[p].kids[0], st.objs[p].below.value, ShadowsOf(st.objs, x);
      ShadowsOf(DoCollapse(st, p).objs, x) == if x == p then {} else if x == g then s - {p} + {c} else s
  {
    var objs, c, g, s := DoCollapse(st, p).objs, st.objs[p].kids[0], st.objs[p].below.value, ShadowsOf(st.objs, x);
    forall k
      ensures k in ShadowsOf(objs, x) <==> k in if x == p then {} else if x == g then s - {p} + {c} else s
    {
      assert k in objs <==> k in st.objs;
      assert objs[c].Shadow? && objs[c].below == Some(g) && objs[p].Shadow? && objs[p].below == None;
      assert k in s <==> k in st.objs && st.objs[k].Shadow? && st.objs[k].below == Some(x);
      if k != c && k != p && k in objs { SameAfterCollapse(st, p, k); }
    }
  }

  lemma {:induction false} CollapseShadows(st: State, p: Id)
    requires CanCollapse(st, p)
    ensures
      var objs, c, g := DoCollapse(st, p).objs, st.objs[p].kids[0], st.objs[p].below.value;
      && ShadowsOf(objs, p) == {} && ShadowsOf(objs, g) == ShadowsOf(st.objs, g) - {p} + {c}
      && p in ShadowsOf(st.objs, g) && c !in ShadowsOf(st.objs, g)
      && |ShadowsOf(objs, g)| == |ShadowsOf(st.objs, g)|
      && (forall x | x != p && x != g :: ShadowsOf(objs, x) == ShadowsOf(st.objs, x))
  {
    var objs, c, g := DoCollapse(st, p).objs, st.objs[p].kids[0], st.objs[p].below.value;
    var s := ShadowsOf(st.objs, g);
    assert p in s && c !in s;
    CollapseShadowsOf(st, p, p);
    CollapseShadowsOf(st, p, g);
    forall x | x != p && x != g ensures ShadowsOf(objs, x) == ShadowsOf(st.objs, x) { CollapseShadowsOf(st, p, x); }
    Swap(s, s - {p}, p);
    Swap(s - {p}, s - {p} + {c}, c);
  }

  /** One reference moves: the child's on p becomes a pending drop, p's on the grandparent becomes the child's. */
  lemma {:induction false} CollapseRefs(st: State, p: Id)
    requires Referenced(st) && CanCollapse(st, p)
    ensures Referenced(DoCollapse(st, p))
  {
    var st' := DoCollapse(st, p);
    CollapseShadows(st, p);
    forall x | x in st'.objs ensures ReferencedAt(st', x) { assert ReferencedAt(st, x); }
  }

  lemma {:induction false} CollapseKids(st: State, p: Id)
    requires Counted(st) && CanCollapse(st, p)
    ensures Counted(DoCollapse(st, p))
  {
    var st', c, g := DoCollapse(st, p), st.objs[p].kids[0], st.objs[p].below.value;
    CollapseShadows(st, p);
    forall x | x in st'.objs && st'.objs[x].Shadow? ensures CountedAt(st', x) {
      assert CountedAt(st, x);
      if x == g {
        WithoutLists(st.objs[g].kids, ShadowsOf(st.objs, g), p);
        ListsAppend(Without(st.objs[g].kids, p), ShadowsOf(st.objs, g) - {p}, c);
      }
    }
  }

  lemma {:induction false} CollapseAlone(st: State, p: Id)
    requires Alone(st) && CanCollapse(st, p)
    ensures Alone(DoCollapse(st, p))
  {
    var st' := DoCollapse(st, p);
    CollapseShadows(st, p);
    forall m | m in st'.maps && !st'.maps[m].flagged ensures AloneAt(st', m) { assert AloneAt(st, m); }
  }

  /** Nobody maps a shadow that is shadowed and expects no further shadow. */
  lemma {:induction false} CollapseUnmapped(st: State, p: Id)
    requires Counted(st) && Alone(st) && CanCollapse(st, p)
    ensures MapsOn(st.maps, p) == {}
  {
    assert CountedAt(st, p);
    forall m | m in st.maps ensures st.maps[m].obj != p {
      if st.maps[m].flagged { assert m !in FlaggedOn(st.maps, p); } else { assert AloneAt(st, m); }
    }
  }

  lemma {:induction false} CollapseInv(st: State, p: Id)
    requires Inv(st) && CanCollapse(st, p)
    ensures Inv(DoCollapse(st, p))
  {
    CollapseLinks(st, p);
    CollapseRefs(st, p);
    CollapseKids(st, p);
    CollapseUnmapped(st, p);
    GonePlaced(st, DoCollapse(st, p), p);
    CollapseAlone(st, p);
  }

  // ----- Forking -----

  ghost predicate Distinct(twins: seq<(Id, Id)>) {
    forall i, j :: 0 <= i < j < |twins| ==> twins[i].0 != twins[j].0 && twins[i].1 != twins[j].1
  }

  ghost predicate Todo(maps: Maps, src: nat, dst: nat, twins: seq<(Id, Id)>) {
    && src != dst && Distinct(twins)
    && forall i :: 0 <= i < |twins| ==> twins[i].0 in maps && maps[twins[i].0].vas == src && twins[i].1 !in maps
  }

  ghost function Firsts(twins: seq<(Id, Id)>): set<Id> { set i | 0 <= i < |twins| :: twins[i].0 }

  /** Midway through a fork, only a mapping still to be forked may sit unflagged beside a flagged one. */
  ghost predicate AloneBut(st: State, src: nat, todo: set<Id>) {
    forall m {:trigger AloneButAt(st, src, todo, m)} | m in st.maps && !st.maps[m].flagged ::
      AloneButAt(st, src, todo, m)
  }

  ghost predicate AloneButAt(st: State, src: nat, todo: set<Id>, m: Id)
    requires m in st.maps
  {
    var o := st.maps[m].obj;
    && ShadowsOf(st.objs, o) == {} && (st.maps[m].vas == src ==> m in todo)
    && forall n | n in st.maps && n != m && st.maps[n].obj == o ::
         && (st.maps[n].flagged ==> m in todo)
         && (!st.maps[n].flagged ==> st.maps[n].vas == st.maps[m].vas && Disjoint(st.maps[n], st.maps[m]))
  }

  lemma {:induction false} ForkMapOwned(st: State, m: Id, n: Id, dst: nat)
    requires Owned(st) && m in st.maps && n !in st.maps && ObjOk(st, m)
    ensures Owned(ForkMap(st, m, n, dst)) && SameShadows(st.objs, ForkMap(st, m, n, dst).objs)
  {
    var st' := ForkMap(st, m, n, dst);
    forall x | x in st.objs ensures Balanced(st, st', x) {
      CountPut(st.maps, m, st'.maps[m], x);
      CountPut(st.maps[m := st'.maps[m]], n, st'.maps[n], x);
    }
    Recounted(st, st');
  }

  lemma {:induction false} ForkMapPlaced(st: State, m: Id, n: Id, dst: nat)
    requires Placed(st) && m in st.maps && n !in st.maps && ObjOk(st, m)
    ensures Placed(ForkMap(st, m, n, dst))
  {
    var st' := ForkMap(st, m, n, dst);
    assert PlacedAt(st, m);
    KeptPlaced(st, st', {m, n});
  }

  lemma {:induction false} ForkMapAlone(st: State, m: Id, n: Id, src: nat, dst: nat, todo: set<Id>)
    requires AloneBut(st, src, todo) && m in st.maps && n !in st.maps && ObjOk(st, m)
    requires st.maps[m].vas == src && src != dst
    requires SameShadows(st.objs, ForkMap(st, m, n, dst).objs)
    ensures AloneBut(ForkMap(st, m, n, dst), src, todo - {m})
  {
    var st' := ForkMap(st, m, n, dst);
    forall k | k in st'.maps && !st'.maps[k].flagged ensures AloneButAt(st', src, todo - {m}, k) {
      assert AloneButAt(st, src, todo, k);
    }
  }

  ghost predicate Forking(st: State, src: nat, dst: nat, twins: seq<(Id, Id)>) {
    Owned(st) && Placed(st) && Clean(st.objs) && AloneBut(st, src, Firsts(twins)) && Todo(st.maps, src, dst, twins)
  }

  lemma {:induction false} FlaggedDemand(st: State, m: Id)
    requires Counted(st) && Placed(st) && m in st.maps
    ensures ObjOk(st, m)
  {
    assert PlacedAt(st, m);
    var o := st.maps[m].obj;
    if st.maps[m].flagged && st.objs[o].Shadow? {
      assert CountedAt(st, o) && m in FlaggedOn(st.maps, o);
    }
  }

  lemma {:induction false} ForkStep(st: State, src: nat, dst: nat, twins: seq<(Id, Id)>)
    requires Forking(st, src, dst, twins) && twins != []
    ensures ObjOk(st, twins[0].0) && Forking(ForkMap(st, twins[0].0, twins[0].1, dst), src, dst, twins[1..])
  {
    var m, n := twins[0].0, twins[0].1;
    FlaggedDemand(st, m);
    ForkMapOwned(st, m, n, dst);
    ForkMapPlaced(st, m, n, dst);
    ForkMapAlone(st, m, n, src, dst, Firsts(twins));
    FirstsRest(twins);
    TodoRest(st, src, dst, twins);
  }

  lemma {:induction false} TodoRest(st: State, src: nat, dst: nat, twins: seq<(Id, Id)>)
    requires Todo(st.maps, src, dst, twins) && twins != [] && ObjOk(st, twins[0].0)
    ensures Todo(ForkMap(st, twins[0].0, twins[0].1, dst).maps, src, dst, twins[1..])
  {
    var rest := twins[1..];
    assert forall i :: 0 <= i < |rest| ==> rest[i] == twins[i + 1];
  }

  lemma {:induction false} FirstsRest(twins: seq<(Id, Id)>)
    requires Distinct(twins) && twins != []
    ensures Firsts(twins[1..]) == Firsts(twins) - {twins[0].0}
  {
    var rest := twins[1..];
    forall m ensures m in Firsts(rest) <==> m in Firsts(twins) - {twins[0].0} {
      if m in Firsts(rest) {
        var i :| 0 <= i < |rest| && rest[i].0 == m;
        assert twins[i + 1].0 == m;
      }
      if m in Firsts(twins) - {twins[0].0} {
        var i :| 0 <= i < |twins| && twins[i].0 == m;
        assert rest[i - 1].0 == m;
      }
    }
  }

  lemma {:induction false} ForkAllForking(st: State, src: nat, dst: nat, twins: seq<(Id, Id)>)
    requires Forking(st, src, dst, twins) && forall m | m in st.maps :: st.maps[m].obj in st.objs
    ensures Forking(ForkAll(st, twins, dst), src, dst, [])
    decreases |twins|
  {
    if twins != [] {
      ForkStep(st, src, dst, twins);
      ForkAllForking(ForkMap(st, twins[0].0, twins[0].1, dst), src, dst, twins[1..]);
    } else {
      assert twins == [];
    }
  }

  lemma {:induction false} ForkStart(st: State, src: nat, dst: nat, twins: seq<(Id, Id)>)
    requires Inv(st) && ForkReady(st, src, dst, twins)
    ensures Forking(st, src, dst, twins)
  {
    forall m | m in st.maps && !st.maps[m].flagged ensures AloneButAt(st, src, Firsts(twins), m) {
      assert AloneAt(st, m);
      if st.maps[m].vas == src {
        var i :| 0 <= i < |twins| && twins[i].0 == m;
        assert m in Firsts(twins);
      }
    }
  }

  lemma {:induction false} ForkInv(st: State, src: nat, dst: nat, twins: seq<(Id, Id)>)
    requires Inv(st) && ForkReady(st, src, dst, twins) && Safe(st, Fork(src, dst, twins))
    ensures Inv(ForkAll(st, twins, dst))
  {
    ForkStart(st, src, dst, twins);
    ForkAllForking(st, src, dst, twins);
    ForkEnd(ForkAll(st, twins, dst), src, dst);
  }

  lemma {:induction false} ForkEnd(st: State, src: nat, dst: nat)
    requires Forking(st, src, dst, [])
    ensures Inv(st)
  {
    forall m | m in st.maps && !st.maps[m].flagged ensures AloneAt(st, m) {
      assert AloneButAt(st, src, Firsts([]), m);
      assert m !in Firsts([]);
    }
  }

  // ----- Temporary references -----

  lemma {:induction false} HoldInv(st: State, o: Id)
    requires Inv(st) && o in st.objs
    ensures Inv(DoHold(st, o))
  {
    var st' := DoHold(st, o);
    forall x | x in st.objs ensures Balanced(st, st', x) {}
    Recounted(st, st');
    KeptPlaced(st, st', {});
    KeptAlone(st, st', {});
  }

  // ----- Every step -----

  /** Every step from a state of the invariant leads to one. */
  lemma {:induction false} StepInv(st: State, s: Step)
    requires Inv(st) && Enabled(st, s)
    ensures Safe(st, s) && Inv(Next(st, s))
  {
    StepSafe(st, s);
    match s
    case NewFile(o, fill) => NewFileInv(st, o, fill);
    case MapFile(m, o, vas, first, limit) => MapFileInv(st, m, o, vas, first, limit);
    case MapAnon(m, o, vas, limit) => MapAnonInv(st, m, o, vas, limit);
    case Demand(m, o) => DemandInv(st, m, o);
    case Fault(m, pg, write) => FaultInv(st, m, pg, write);
    case Store(m, a, v) => StoreInv(st, m, a, v);
    case Split(m, n, pg) => SplitInv(st, m, n, pg);
    case Trim(m, pg) => TrimInv(st, m, pg);
    case Unmap(m) => UnmapInv(st, m);
    case Hold(o) => HoldInv(st, o);
    case Drop(o) => DropInv(st, o);
    case Collapse(p) => CollapseReady(st, p); CollapseInv(st, p);
    case Fork(src, dst, twins) => ForkInv(st, src, dst, twins);
  }
}
