/** The walk down a shadow chain (vm_shadow_chain_get) among everything else that goes on. */
module CowWalk {
  // A fault holds the lock of its object and of its mapping while the walk goes down the chain. It
  // keeps a reference on the object it stands at and locks one object at a time, so between two of
  // its steps anything may happen that does not need those locks.

  import opened CowState
  import opened CowSteps
  import opened CowInvariant
  import opened CowMeaning
  import opened CowRun
  import opened Lists

  /** The fault: its mapping, the object whose lock it holds, and the page it looks for. */
  datatype Quest = Quest(m: Id, o: Id, pg: nat)

  /** Where the walk is; Crashed is the reference taken on a missing object. */
  datatype Place = At(cur: Id) | Found(page: Page) | Crashed

  datatype Walk = Walk(st: State, at: Place)

  /**
   Fill is what other walks do beside the steps of the machine: make a page of a root object
   resident.
   */
  datatype WalkStep = Advance | Other(s: Step) | Fill(o: Id, pg: nat)

  ghost function FilledState(st: State, o: Id, pg: nat): State
    requires o in st.objs
  {
    State(Filled(st.objs, o, pg), st.maps, st.loose)
  }

  /** The fault has its locks, and its object is a shadow without the page. */
  ghost predicate Locked(q: Quest, st: State) {
    && q.m in st.maps && !st.maps[q.m].flagged && st.maps[q.m].obj == q.o && PAGE * q.pg < st.maps[q.m].limit
    && Live(st.objs, q.o) && st.objs[q.o].Shadow? && q.pg !in st.objs[q.o].pages
  }

  ghost function Begun(q: Quest, st: State): Walk
    requires Locked(q, st) && st.objs[q.o].below.value in st.objs
  {
    Walk(DoHold(st, st.objs[q.o].below.value), At(st.objs[q.o].below.value))
  }

  /** What the lock of the mapping keeps from happening. */
  predicate UsesMap(q: Quest, st: State, s: Step) {
    match s
    case Demand(m, _) => m == q.m
    case Fault(m, _, _) => m == q.m
    case Split(m, _, _) => m == q.m
    case Trim(m, _) => m == q.m
    case Unmap(m) => m == q.m
    case Fork(src, _, _) => q.m in st.maps && src == st.maps[q.m].vas
    case _ => false
  }

  /** What the lock of the object keeps from happening: a fault on it, and its part in a collapse. */
  predicate UsesObj(q: Quest, st: State, s: Step) {
    match s
    case Fault(m, _, _) => m in st.maps && st.maps[m].obj == q.o
    case Collapse(p) => p == q.o || (p in st.objs && Kids(st.objs[p]) == [q.o])
    case _ => false
  }

  /** The walk's own reference is not anybody else's to drop. */
  predicate UsesRef(w: Walk, s: Step) { s.Drop? && w.at == At(s.o) && w.st.loose[s.o] == 1 }

  ghost predicate WalkEnabled(q: Quest, w: Walk, s: WalkStep) {
    match s
    case Advance => w.at.At? && w.at.cur in w.st.objs && q.o in w.st.objs && w.st.objs[q.o].Shadow?
    case Other(t) =>
      Enabled(w.st, t) && Safe(w.st, t) && !UsesMap(q, w.st, t) && !UsesObj(q, w.st, t) && !UsesRef(w, t)
    case Fill(o, _) => o in w.st.objs
  }

  /** One round of the loop, or its end at the root. */
  ghost function DoAdvance(q: Quest, w: Walk): Walk
    requires WalkEnabled(q, w, Advance)
  {
    var cur := w.at.cur;
    var x := w.st.objs[cur];
    if cur == w.st.objs[q.o].root && x.Root? then
      var st' := FilledState(w.st, cur, q.pg);
      Walk(st', Found(st'.objs[cur].pages[q.pg]))
    else if x.Root? then Walk(w.st, Crashed)
    else if q.pg in x.pages then Walk(w.st, Found(x.pages[q.pg]))
    else if x.below.None? || x.below.value !in w.st.objs then Walk(w.st, Crashed)
    else Walk(DoHold(w.st, x.below.value), At(x.below.value))
  }

  ghost function WalkNext(q: Quest, w: Walk, s: WalkStep): Walk
    requires WalkEnabled(q, w, s)
  {
    match s
    case Advance => DoAdvance(q, w)
    case Other(t) => Walk(Next(w.st, t), w.at)
    case Fill(o, pg) => Walk(FilledState(w.st, o, pg), w.at)
  }

  /** A collapse of the very object the walk stands at. */
  predicate Hits(w: Walk, s: WalkStep) { s.Other? && s.s.Collapse? && w.at == At(s.s.p) }

  // ----- Filling a page -----

  lemma {:induction false} FilledInv(st: State, o: Id, pg: nat)
    requires Inv(st) && o in st.objs
    ensures Inv(FilledState(st, o, pg))
  {
    var st' := FilledState(st, o, pg);
    FilledRefilled(st.objs, o, pg);
    RepagedOwned(st, st');
    KeptPlaced(st, st', {});
    KeptAlone(st, st', {});
  }

  // ----- What a step does to one object -----

  /** What never changes about an object, but for its own collapse. */
  ghost predicate Fixed(x: Obj, y: Obj) {
    && (x.Root? <==> y.Root?)
    && (x.Shadow? ==> y.size == x.size && y.root == x.root && (x.below.None? <==> y.below.None?))
  }

  lemma {:induction false} CollapseFixed(st: State, p: Id, x: Id)
    requires Inv(st) && Enabled(st, Collapse(p)) && Safe(st, Collapse(p)) && x in st.objs && x != p
    ensures x in DoCollapse(st, p).objs && Fixed(st.objs[x], DoCollapse(st, p).objs[x])
  {
    CollapseReady(st, p);
  }

  lemma {:induction false} DropFixed(st: State, o: Id, x: Id)
    requires Enabled(st, Drop(o)) && Safe(st, Drop(o)) && x in st.objs && x in DoDrop(st, o).objs
    ensures Fixed(st.objs[x], DoDrop(st, o).objs[x]) && SameBelow(st.objs[x], DoDrop(st, o).objs[x])
  {}

  lemma {:induction false} DemandFixed(st: State, m: Id, o: Id, x: Id)
    requires Enabled(st, Demand(m, o)) && Safe(st, Demand(m, o)) && x in st.objs
    ensures x in DoDemand(st, m, o).objs && Fixed(st.objs[x], DoDemand(st, m, o).objs[x])
    ensures SameBelow(st.objs[x], DoDemand(st, m, o).objs[x])
  {}

  lemma {:induction false} ForkFixed(st: State, twins: seq<(Id, Id)>, dst: nat, x: Id)
    requires forall i :: 0 <= i < |twins| ==> twins[i].0 in st.maps
    requires AllIn(st) && x in st.objs
    ensures x in ForkAll(st, twins, dst).objs && Fixed(st.objs[x], ForkAll(st, twins, dst).objs[x])
    ensures SameBelow(st.objs[x], ForkAll(st, twins, dst).objs[x])
    decreases |twins|
  {
    if twins != [] {
      var rest := twins[1..];
      assert forall i :: 0 <= i < |rest| ==> rest[i] == twins[i + 1];
      ForkFixed(ForkMap(st, twins[0].0, twins[0].1, dst), rest, dst, x);
    }
  }

  lemma {:induction false} StepFixed(st: State, s: Step, x: Id)
    requires Inv(st) && Enabled(st, s) && Safe(st, s) && x in st.objs && x in Next(st, s).objs && s != Collapse(x)
    ensures Fixed(st.objs[x], Next(st, s).objs[x]) && (!s.Collapse? ==> SameBelow(st.objs[x], Next(st, s).objs[x]))
  {
    match s
    case Fault(m, pg, write) =>
      FaultRefilled(st, m, pg, write);
      assert SameLink(st.objs[x], Next(st, s).objs[x]);
    case Fork(_, dst, twins) => ForkFixed(st, twins, dst, x);
    case Collapse(p) => CollapseFixed(st, p, x);
    case Drop(o) => DropFixed(st, o, x);
    case Demand(m, o) => DemandFixed(st, m, o, x);
    case _ =>
  }

  predicate Plain(s: Step) { s.NewFile? || s.MapFile? || s.MapAnon? || s.Split? || s.Trim? || s.Unmap? || s.Hold? }

  lemma {:induction false} PlainView(st: State, s: Step, x: Id, pg: nat)
    requires Inv(st) && Enabled(st, s) && Safe(st, s) && Inv(Next(st, s)) && Plain(s) && Live(st.objs, x)
    ensures Live(Next(st, s).objs, x) && View(Next(st, s).objs, x, pg) == View(st.objs, x, pg)
  {
    ViewAll(st.objs, Next(st, s).objs, x, pg);
  }

  /** No step changes what a surviving object reads below its size, but for a store to that page of that object. */
  lemma {:induction false} StepView(st: State, s: Step, x: Id, pg: nat, at: nat)
    requires Inv(st) && Enabled(st, s) && Safe(st, s) && Inv(Next(st, s)) && at < PAGE
    requires Live(st.objs, x) && Live(Next(st, s).objs, x)
    requires st.objs[x].Shadow? ==> PAGE * pg + at < st.objs[x].size
    requires !(s.Store? && s.m in st.maps && st.maps[s.m].obj == x && s.a / PAGE == pg)
    ensures View(Next(st, s).objs, x, pg)[at] == View(st.objs, x, pg)[at]
  {
    match s
    case Fault(m, k, write) => FaultView(st, m, k, write, x, pg, at);
    case Store(m, a, v) => StoreView(st, m, a, v, x, pg);
    case Demand(m, o) => DemandView(st, m, o, x, pg);
    case Drop(o) => DropView(st, o, x, pg);
    case Collapse(p) =>
      CollapseReady(st, p);
      CollapseView(st, p, x, pg);
    case Fork(_, dst, twins) =>
      ForkObjs(st, twins, dst);
      ViewAll(st.objs, Next(st, s).objs, x, pg);
    case _ => PlainView(st, s, x, pg);
  }

  // ----- The object whose lock is held -----

  lemma {:induction false} KeptByFault(q: Quest, st: State, m: Id, k: nat, write: bool)
    requires Inv(st) && Locked(q, st) && Enabled(st, Fault(m, k, write)) && Safe(st, Fault(m, k, write))
      && st.maps[m].obj != q.o
    ensures var x := DoFault(st, m, k, write).objs; q.o in x && x[q.o] == st.objs[q.o]
  {
    var o := st.maps[m].obj;
    if !(k in st.objs[o].pages || st.objs[o].Root?) { assert LinkedAt(st.objs, o); }
  }

  lemma {:induction false} KeptByFork(st: State, twins: seq<(Id, Id)>, dst: nat, o: Id, m: Id)
    requires forall i :: 0 <= i < |twins| ==> twins[i].0 in st.maps && twins[i].0 != m && twins[i].1 != m
    requires AllIn(st) && o in st.objs && m in st.maps
    ensures var st' := ForkAll(st, twins, dst); m in st'.maps && st'.maps[m] == st.maps[m]
    ensures var st' := ForkAll(st, twins, dst); o in st'.objs && SameRead(st.objs[o], st'.objs[o])
    decreases |twins|
  {
    if twins != [] {
      var rest := twins[1..];
      assert forall i :: 0 <= i < |rest| ==> rest[i] == twins[i + 1];
      KeptByFork(ForkMap(st, twins[0].0, twins[0].1, dst), rest, dst, o, m);
    }
  }

  lemma {:induction false} KeptByCollapse(q: Quest, st: State, p: Id)
    requires Inv(st) && Locked(q, st) && Enabled(st, Collapse(p)) && Safe(st, Collapse(p))
      && !UsesObj(q, st, Collapse(p))
    ensures var x := DoCollapse(st, p).objs; q.o in x && SameRead(st.objs[q.o], x[q.o])
  {
    CollapseReady(st, p);
    assert Kids(st.objs[p]) == [st.objs[p].kids[0]];
  }

  lemma {:induction false} KeptByDrop(q: Quest, st: State, o: Id)
    requires Inv(st) && Locked(q, st) && Enabled(st, Drop(o)) && Safe(st, Drop(o))
    ensures var x := DoDrop(st, o).objs; q.o in x && SameRead(st.objs[q.o], x[q.o])
  {
    if o == q.o && st.objs[o].ref <= 1 {
      assert q.m in MapsOn(st.maps, o);
      Unclaimed(st, o);
      assert false;
    }
  }

  lemma {:induction false} KeptByDemand(q: Quest, st: State, m: Id, o: Id)
    requires Inv(st) && Locked(q, st) && Enabled(st, Demand(m, o)) && Safe(st, Demand(m, o)) && m != q.m
    ensures Locked(q, DoDemand(st, m, o)) && DoDemand(st, m, o).objs[q.o].below == st.objs[q.o].below
  {}

  lemma {:induction false} KeptByStore(q: Quest, st: State, m: Id, a: nat, v: byte)
    requires Inv(st) && Locked(q, st) && Enabled(st, Store(m, a, v)) && Safe(st, Store(m, a, v))
    ensures Locked(q, DoStore(st, m, a, v)) && DoStore(st, m, a, v).objs[q.o].below == st.objs[q.o].below
  {}

  lemma {:induction false} KeptByPlain(q: Quest, st: State, s: Step)
    requires Inv(st) && Locked(q, st) && Enabled(st, s) && Safe(st, s) && Plain(s) && !UsesMap(q, st, s)
    ensures Locked(q, Next(st, s)) && Next(st, s).objs[q.o].below == st.objs[q.o].below
  {}

  /** Nothing that leaves the fault's locks alone changes its mapping, or its object's place in the chain. */
  lemma {:induction false} LockKept(q: Quest, st: State, s: Step)
    requires Inv(st) && Locked(q, st) && Enabled(st, s) && Safe(st, s) && Inv(Next(st, s))
    requires !UsesMap(q, st, s) && !UsesObj(q, st, s)
    ensures Locked(q, Next(st, s)) && Next(st, s).objs[q.o].below == st.objs[q.o].below
  {
    match s
    case Fault(m, k, write) => KeptByFault(q, st, m, k, write);
    case Fork(src, dst, twins) => KeptByFork(st, twins, dst, q.o, q.m);
    case Collapse(p) => KeptByCollapse(q, st, p);
    case Drop(o) => KeptByDrop(q, st, o);
    case Demand(m, o) => KeptByDemand(q, st, m, o);
    case Store(m, a, v) => KeptByStore(q, st, m, a, v);
    case _ => KeptByPlain(q, st, s);
  }

  // ----- The walk -----

  /** The page is what the fault's object reads, at every byte the object has. */
  ghost predicate Agrees(q: Quest, objs: Objs, page: Page)
    requires Linked(objs) && Live(objs, q.o) && objs[q.o].Shadow?
  {
    forall at | 0 <= at < PAGE && PAGE * q.pg + at < objs[q.o].size :: page[at] == View(objs, q.o, q.pg)[at]
  }

  /** From here on down the page is still to be found. */
  ghost predicate OnTrack(q: Quest, objs: Objs, cur: Id)
    requires Linked(objs) && Live(objs, q.o) && objs[q.o].Shadow?
  {
    && Live(objs, cur) && (objs[cur].Root? ==> cur == objs[q.o].root)
    && (objs[cur].Shadow? ==> objs[cur].root == objs[q.o].root && objs[q.o].size <= objs[cur].size)
    && Agrees(q, objs, View(objs, cur, q.pg))
  }

  predicate Dead(objs: Objs, o: Id) { o in objs && objs[o].Shadow? && objs[o].below.None? }

  // ----- The chain -----

  /** cur is x or further down its chain. */
  ghost predicate Beneath(objs: Objs, x: Id, cur: Id)
    requires Linked(objs) && Live(objs, x)
    decreases Rank(objs, x)
  {
    x == cur || (objs[x].Shadow? && (assert LinkedAt(objs, x); Beneath(objs, objs[x].below.value, cur)))
  }

  lemma {:induction false} BeneathLive(objs: Objs, x: Id, cur: Id)
    requires Linked(objs) && Live(objs, x) && Beneath(objs, x, cur)
    ensures Live(objs, cur) && (x != cur ==> ShadowsOf(objs, cur) != {})
    decreases Rank(objs, x)
  {
    if x != cur {
      assert LinkedAt(objs, x);
      assert x in ShadowsOf(objs, objs[x].below.value);
      BeneathLive(objs, objs[x].below.value, cur);
    }
  }

  lemma {:induction false} BeneathDown(objs: Objs, x: Id, cur: Id)
    requires Linked(objs) && Live(objs, x) && Beneath(objs, x, cur) && cur in objs && objs[cur].Shadow?
      && objs[cur].below.Some?
    ensures Beneath(objs, x, objs[cur].below.value)
    decreases Rank(objs, x)
  {
    assert LinkedAt(objs, x);
    if x != cur {
      BeneathDown(objs, objs[x].below.value, cur);
    } else {
      assert Beneath(objs, objs[x].below.value, objs[x].below.value);
    }
  }

  /** The chain stays if no object of d, which it cannot leave, is relinked. */
  lemma {:induction false} BeneathKept(a: Objs, b: Objs, d: set<Id>, x: Id, cur: Id)
    requires Linked(a) && Linked(b) && Live(a, x) && x in d && Beneath(a, x, cur)
    requires Untouched(a, a, d) && forall y | y in d :: y in b && SameBelow(a[y], b[y])
    ensures Live(b, x) && Beneath(b, x, cur)
    decreases Rank(a, x)
  {
    if a[x].Shadow? { assert LinkedAt(a, x); }
    if x != cur { BeneathKept(a, b, d, a[x].below.value, cur); }
  }

  lemma {:induction false} BeneathCollapse(st: State, p: Id, x: Id, cur: Id)
    requires Inv(st) && Enabled(st, Collapse(p)) && Safe(st, Collapse(p)) && Linked(DoCollapse(st, p).objs)
    requires Live(st.objs, x) && x != p && cur != p && Beneath(st.objs, x, cur)
    ensures Live(DoCollapse(st, p).objs, x) && Beneath(DoCollapse(st, p).objs, x, cur)
    decreases Rank(st.objs, x)
  {
    CollapseReady(st, p);
    CollapseFixed(st, p, x);
    if x != cur {
      assert LinkedAt(st.objs, x);
      var y := st.objs[x].below.value;
      if y == p {
        assert x in ShadowsOf(st.objs, p);
        assert LinkedAt(st.objs, p);
        BeneathCollapse(st, p, st.objs[p].below.value, cur);
      } else {
        BeneathCollapse(st, p, y, cur);
        assert x == st.objs[p].kids[0] ==> x in ShadowsOf(st.objs, p);
      }
    }
  }

  lemma {:induction false} Closed(objs: Objs)
    requires Linked(objs)
    ensures Untouched(objs, objs, objs.Keys)
  {
    forall y | y in objs && objs[y].Shadow? && objs[y].below.Some?
      ensures objs[y].below.value in objs
    {
      assert LinkedAt(objs, y);
    }
  }

  lemma {:induction false} BeneathDrop(st: State, o: Id, x: Id, cur: Id)
    requires Inv(st) && Enabled(st, Drop(o)) && Safe(st, Drop(o)) && Inv(DoDrop(st, o)) && Live(st.objs, x)
    requires Beneath(st.objs, x, cur) && x in DoDrop(st, o).objs
    ensures Live(DoDrop(st, o).objs, x) && Beneath(DoDrop(st, o).objs, x, cur)
  {
    var b := DoDrop(st, o).objs;
    var d := if o in b then st.objs.Keys else st.objs.Keys - {o};
    if o in b {
      Closed(st.objs);
    } else {
      Unclaimed(st, o);
      AllButTop(st.objs, o);
    }
    forall y | y in d ensures y in b && SameBelow(st.objs[y], b[y]) { DropFixed(st, o, y); }
    BeneathKept(st.objs, b, d, x, cur);
  }

  lemma {:induction false} BeneathStep(st: State, s: Step, x: Id, cur: Id)
    requires Inv(st) && Enabled(st, s) && Safe(st, s) && Inv(Next(st, s)) && Live(st.objs, x)
      && Beneath(st.objs, x, cur)
    requires x in Next(st, s).objs && s != Collapse(x) && s != Collapse(cur)
    ensures Live(Next(st, s).objs, x) && Beneath(Next(st, s).objs, x, cur)
  {
    if s.Collapse? {
      BeneathCollapse(st, s.p, x, cur);
    } else if s.Drop? {
      BeneathDrop(st, s.o, x, cur);
    } else {
      var b := Next(st, s).objs;
      Closed(st.objs);
      forall y | y in st.objs ensures y in b && SameBelow(st.objs[y], b[y]) {
        Survives(st, s, y);
        StepFixed(st, s, y);
      }
      BeneathKept(st.objs, b, st.objs.Keys, x, cur);
    }
  }

  /** Only a drop makes an object go away, and only the one it names. */
  lemma {:induction false} Survives(st: State, s: Step, y: Id)
    requires Inv(st) && Enabled(st, s) && Safe(st, s) && y in st.objs && !(s.Drop? && s.o == y)
    ensures y in Next(st, s).objs
  {
    match s
    case Fault(m, pg, write) => FaultRefilled(st, m, pg, write);
    case Fork(_, dst, twins) => ForkObjs(st, twins, dst);
    case _ =>
  }

  /** cur is below the fault's object. */
  ghost predicate OnChain(q: Quest, objs: Objs, cur: Id)
    requires Linked(objs) && Live(objs, q.o) && objs[q.o].Shadow?
  {
    assert LinkedAt(objs, q.o);
    Beneath(objs, objs[q.o].below.value, cur)
  }

  /** hit tells whether the object the walk stood at was collapsed. */
  ghost predicate WalkInv(q: Quest, w: Walk, hit: bool) {
    && Inv(w.st) && Locked(q, w.st)
    && match w.at
       case At(cur) =>
         && cur in w.st.loose
         && if hit then Dead(w.st.objs, cur) else OnTrack(q, w.st.objs, cur) && OnChain(q, w.st.objs, cur)
       case Found(page) => !hit && Agrees(q, w.st.objs, page)
       case Crashed => hit
  }

  /** One object down. */
  lemma {:induction false} OneDown(q: Quest, objs: Objs, cur: Id)
    requires Linked(objs) && Live(objs, q.o) && objs[q.o].Shadow?
    requires OnTrack(q, objs, cur) && objs[cur].Shadow? && q.pg !in objs[cur].pages
      && (cur == q.o || OnChain(q, objs, cur))
    ensures objs[cur].below.value in objs && OnTrack(q, objs, objs[cur].below.value)
    ensures OnChain(q, objs, objs[cur].below.value)
  {
    assert LinkedAt(objs, cur) && LinkedAt(objs, q.o);
    if cur == q.o {
      assert Beneath(objs, objs[cur].below.value, objs[cur].below.value);
    } else {
      BeneathDown(objs, objs[q.o].below.value, cur);
    }
  }

  lemma {:induction false} BeginInv(q: Quest, st: State)
    requires Inv(st) && Locked(q, st)
    ensures st.objs[q.o].below.value in st.objs && WalkInv(q, Begun(q, st), false)
  {
    OneDown(q, st.objs, q.o);
    HoldKeeps(q, st, st.objs[q.o].below.value);
  }

  /** The same chains and views, and the same locks. */
  ghost predicate Quiet(q: Quest, st: State, st': State)
    requires Inv(st) && Locked(q, st)
  {
    && Inv(st') && Locked(q, st')
    && (forall page | Agrees(q, st.objs, page) :: Agrees(q, st'.objs, page))
    && (forall cur | OnTrack(q, st.objs, cur) && OnChain(q, st.objs, cur) ::
      OnTrack(q, st'.objs, cur) && OnChain(q, st'.objs, cur))
    && (forall cur | Dead(st.objs, cur) :: Dead(st'.objs, cur))
    && st.loose <= st'.loose
  }

  /** A reference changes nothing that the walk depends on. */
  lemma {:induction false} HoldKeeps(q: Quest, st: State, o: Id)
    requires Inv(st) && Locked(q, st) && o in st.objs
    ensures Quiet(q, st, DoHold(st, o))
  {
    var b := DoHold(st, o).objs;
    HoldInv(st, o);
    ViewAll(st.objs, b, q.o, q.pg);
    forall x | OnTrack(q, st.objs, x) && OnChain(q, st.objs, x) ensures OnTrack(q, b, x) && OnChain(q, b, x) {
      ViewAll(st.objs, b, x, q.pg);
      assert LinkedAt(st.objs, q.o);
      Closed(st.objs);
      BeneathKept(st.objs, b, st.objs.Keys, st.objs[q.o].below.value, x);
    }
  }

  lemma {:induction false} FilledKeeps(q: Quest, st: State, o: Id, k: nat)
    requires Inv(st) && Locked(q, st) && o in st.objs
    ensures Quiet(q, st, FilledState(st, o, k))
  {
    var b := FilledState(st, o, k).objs;
    FilledInv(st, o, k);
    ViewFilled(st.objs, o, k, q.o, q.pg);
    forall x | OnTrack(q, st.objs, x) && OnChain(q, st.objs, x) ensures OnTrack(q, b, x) && OnChain(q, b, x) {
      ViewFilled(st.objs, o, k, x, q.pg);
      assert LinkedAt(st.objs, q.o);
      Closed(st.objs);
      BeneathKept(st.objs, b, st.objs.Keys, st.objs[q.o].below.value, x);
    }
  }

  lemma {:induction false} AdvanceInv(q: Quest, w: Walk, hit: bool)
    requires WalkInv(q, w, hit) && WalkEnabled(q, w, Advance)
    ensures WalkInv(q, DoAdvance(q, w), hit)
  {
    var cur, st := w.at.cur, w.st;
    if !hit {
      assert LinkedAt(st.objs, q.o);
      if st.objs[cur].Root? {
        FilledKeeps(q, st, cur, q.pg);
      } else if q.pg !in st.objs[cur].pages {
        OneDown(q, st.objs, cur);
        HoldKeeps(q, st, st.objs[cur].below.value);
      }
    } else {
      assert LinkedAt(st.objs, cur);
    }
  }

  /** What the fault's object reads does not change. */
  lemma {:induction false} QuestView(q: Quest, st: State, s: Step, at: nat)
    requires Inv(st) && Locked(q, st) && Enabled(st, s) && Safe(st, s) && Inv(Next(st, s)) && Locked(q, Next(st, s))
    requires at < PAGE && PAGE * q.pg + at < st.objs[q.o].size
    ensures View(Next(st, s).objs, q.o, q.pg)[at] == View(st.objs, q.o, q.pg)[at]
  {
    if s.Store? { assert PlacedAt(st, s.m); }
    StepView(st, s, q.o, q.pg, at);
  }

  lemma {:induction false} OtherAgrees(q: Quest, st: State, s: Step, page: Page)
    requires Inv(st) && Locked(q, st) && Enabled(st, s) && Safe(st, s) && Inv(Next(st, s)) && Locked(q, Next(st, s))
    requires Agrees(q, st.objs, page)
    ensures Agrees(q, Next(st, s).objs, page)
  {
    StepFixed(st, s, q.o);
    forall at: nat | at < PAGE && PAGE * q.pg + at < st.objs[q.o].size
      ensures page[at] == View(Next(st, s).objs, q.o, q.pg)[at]
    {
      QuestView(q, st, s, at);
    }
  }

  /** Nobody stores to an object that is shadowed. */
  lemma {:induction false} NoStore(q: Quest, st: State, s: Step, cur: Id)
    requires Inv(st) && Locked(q, st) && Enabled(st, s) && s.Store? && OnChain(q, st.objs, cur)
    ensures st.maps[s.m].obj != cur
  {
    assert PlacedAt(st, s.m) && LinkedAt(st.objs, q.o);
    BeneathLive(st.objs, st.objs[q.o].below.value, cur);
    assert q.o in ShadowsOf(st.objs, st.objs[q.o].below.value);
    assert AloneAt(st, s.m);
  }

  lemma {:induction false} OtherOnTrack(q: Quest, st: State, s: Step, cur: Id)
    requires Inv(st) && Locked(q, st) && Enabled(st, s) && Safe(st, s) && Inv(Next(st, s)) && Locked(q, Next(st, s))
    requires OnTrack(q, st.objs, cur) && OnChain(q, st.objs, cur) && cur in Next(st, s).objs && s != Collapse(cur)
    ensures OnTrack(q, Next(st, s).objs, cur)
  {
    StepFixed(st, s, cur);
    StepFixed(st, s, q.o);
    if s.Store? { NoStore(q, st, s, cur); }
    forall at: nat | at < PAGE && PAGE * q.pg + at < st.objs[q.o].size
      ensures View(Next(st, s).objs, cur, q.pg)[at] == View(Next(st, s).objs, q.o, q.pg)[at]
    {
      QuestView(q, st, s, at);
      StepView(st, s, cur, q.pg, at);
    }
  }

  /** The object right below the fault's object cannot be collapsed: that would need the lock. */
  lemma {:induction false} FirstBelowSafe(q: Quest, st: State, p: Id)
    requires Inv(st) && Locked(q, st) && Enabled(st, Collapse(p)) && !UsesObj(q, st, Collapse(p))
    ensures p != st.objs[q.o].below.value && p != q.o && st.objs[p].Shadow?
  {
    CollapseReady(st, p);
    assert q.o in ShadowsOf(st.objs, st.objs[q.o].below.value);
    assert Kids(st.objs[p]) == [st.objs[p].kids[0]];
  }

  lemma {:induction false} OtherOnChain(q: Quest, st: State, s: Step, cur: Id)
    requires Inv(st) && Locked(q, st) && Enabled(st, s) && Safe(st, s) && Inv(Next(st, s)) && Locked(q, Next(st, s))
    requires Next(st, s).objs[q.o].below == st.objs[q.o].below && !UsesObj(q, st, s)
    requires OnChain(q, st.objs, cur) && s != Collapse(cur)
    ensures OnChain(q, Next(st, s).objs, cur)
  {
    assert LinkedAt(st.objs, q.o) && LinkedAt(Next(st, s).objs, q.o);
    if s.Collapse? { FirstBelowSafe(q, st, s.p); }
    BeneathStep(st, s, st.objs[q.o].below.value, cur);
  }

  lemma {:induction false} OtherInv(q: Quest, w: Walk, s: Step, hit: bool)
    requires WalkInv(q, w, hit) && WalkEnabled(q, w, Other(s))
    ensures WalkInv(q, WalkNext(q, w, Other(s)), hit || Hits(w, Other(s)))
    ensures Hits(w, Other(s)) ==> !hit
  {
    var st, st' := w.st, Next(w.st, s);
    StepInv(st, s);
    LockKept(q, st, s);
    match w.at
    case Crashed =>
    case Found(page) => OtherAgrees(q, st, s, page);
    case At(cur) =>
      StillHeld(w, s, cur);
      if hit {
        assert s != Collapse(cur);
        StepFixed(st, s, cur);
      } else if s != Collapse(cur) {
        OtherOnTrack(q, st, s, cur);
        OtherOnChain(q, st, s, cur);
      }
  }

  /** The walk's reference stays, and with it the object. */
  lemma {:induction false} StillHeld(w: Walk, s: Step, cur: Id)
    requires Inv(w.st) && Enabled(w.st, s) && Safe(w.st, s) && Inv(Next(w.st, s)) && w.at == At(cur)
      && cur in w.st.loose
    requires !UsesRef(w, s)
    ensures cur in Next(w.st, s).loose && cur in Next(w.st, s).objs
  {
    if s.Drop? {
      assert DoDrop(w.st, s.o).loose >= w.st.loose - multiset{s.o};
    } else {
      LooseKept(w.st, s);
    }
  }

  lemma {:induction false} LooseKept(st: State, s: Step)
    requires Inv(st) && Enabled(st, s) && Safe(st, s) && !s.Drop?
    ensures st.loose <= Next(st, s).loose
  {
    match s
    case Fork(_, dst, twins) => ForkLoose(st, twins, dst);
    case Fault(m, pg, write) => assert DoFault(st, m, pg, write).loose == st.loose;
    case Collapse(p) => assert DoCollapse(st, p).loose == st.loose + multiset{p};
    case _ =>
  }

  lemma {:induction false} ForkLoose(st: State, twins: seq<(Id, Id)>, dst: nat)
    requires forall i :: 0 <= i < |twins| ==> twins[i].0 in st.maps
    requires AllIn(st)
    ensures ForkAll(st, twins, dst).loose == st.loose
    decreases |twins|
  {
    if twins != [] {
      var rest := twins[1..];
      assert forall i :: 0 <= i < |rest| ==> rest[i] == twins[i + 1];
      ForkLoose(ForkMap(st, twins[0].0, twins[0].1, dst), rest, dst);
    }
  }

  // ----- Whole walks -----

  lemma {:induction false} WalkInvNext(q: Quest, w: Walk, s: WalkStep, hit: bool)
    requires WalkInv(q, w, hit) && WalkEnabled(q, w, s)
    ensures WalkInv(q, WalkNext(q, w, s), hit || Hits(w, s))
  {
    match s
    case Advance => AdvanceInv(q, w, hit);
    case Other(t) => OtherInv(q, w, t, hit);
    case Fill(o, pg) => FilledKeeps(q, w.st, o, pg);
  }

  ghost predicate WalkTaken(q: Quest, w: Walk, s: WalkStep, w': Walk) {
    WalkEnabled(q, w, s) && w' == WalkNext(q, w, s)
  }

  ghost predicate Path(q: Quest, run: seq<Walk>, steps: seq<WalkStep>) {
    |run| == |steps| + 1 && forall i | 0 <= i < |steps| :: WalkTaken(q, run[i], steps[i], run[i + 1])
  }

  lemma {:induction false} Prepend(q: Quest, w: Walk, s: WalkStep, run: seq<Walk>, steps: seq<WalkStep>)
    requires Path(q, run, steps) && WalkTaken(q, w, s, run[0])
    ensures Path(q, [w] + run, [s] + steps)
  {
    forall i | 0 <= i < |steps| + 1 ensures WalkTaken(q, ([w] + run)[i], ([s] + steps)[i], ([w] + run)[i + 1]) {
      if i > 0 { assert WalkTaken(q, run[i - 1], steps[i - 1], run[i]); }
    }
  }

  /** A walk that begins in the state st, among any other steps. */
  ghost predicate WalkRun(q: Quest, st: State, run: seq<Walk>, steps: seq<WalkStep>) {
    && Inv(st) && Locked(q, st) && st.objs[q.o].below.value in st.objs
    && Path(q, run, steps) && run[0] == Begun(q, st)
  }

  /** Before step i, the object at which the walk stood was collapsed. */
  ghost predicate HitBefore(run: seq<Walk>, steps: seq<WalkStep>, i: nat)
    requires i <= |steps| <= |run|
  {
    exists j :: 0 <= j < i && Hits(run[j], steps[j])
  }

  lemma {:induction false} WalkRunInv(q: Quest, st: State, run: seq<Walk>, steps: seq<WalkStep>, i: nat)
    requires WalkRun(q, st, run, steps) && i < |run|
    ensures WalkInv(q, run[i], HitBefore(run, steps, i))
  {
    if i == 0 {
      BeginInv(q, st);
    } else {
      WalkRunInv(q, st, run, steps, i - 1);
      assert WalkTaken(q, run[i - 1], steps[i - 1], run[i]);
      WalkInvNext(q, run[i - 1], steps[i - 1], HitBefore(run, steps, i - 1));
      assert HitBefore(run, steps, i) <==> HitBefore(run, steps, i - 1) || Hits(run[i - 1], steps[i - 1]);
    }
  }

  lemma {:induction false} AgreesNext(q: Quest, w: Walk, s: WalkStep, hit: bool, page: Page)
    requires WalkInv(q, w, hit) && WalkEnabled(q, w, s) && Agrees(q, w.st.objs, page)
    ensures var w' := WalkNext(q, w, s); Inv(w'.st) && Locked(q, w'.st) && Agrees(q, w'.st.objs, page)
  {
    match s
    case Advance =>
      var cur := w.at.cur;
      if w.st.objs[cur].Root? { FilledKeeps(q, w.st, cur, q.pg); }
      else if w.st.objs[cur].below.Some? {
        assert LinkedAt(w.st.objs, cur);
        HoldKeeps(q, w.st, w.st.objs[cur].below.value);
      }
    case Other(t) =>
      StepInv(w.st, t);
      LockKept(q, w.st, t);
      OtherAgrees(q, w.st, t, page);
    case Fill(o, pg) => FilledKeeps(q, w.st, o, pg);
  }

  /** What the fault's object reads is the same all along. */
  lemma {:induction false} ViewKept(q: Quest, st: State, run: seq<Walk>, steps: seq<WalkStep>, i: nat)
    requires WalkRun(q, st, run, steps) && i < |run|
    ensures Inv(run[i].st) && Locked(q, run[i].st) && Agrees(q, run[i].st.objs, View(st.objs, q.o, q.pg))
  {
    if i == 0 {
      HoldKeeps(q, st, st.objs[q.o].below.value);
    } else {
      ViewKept(q, st, run, steps, i - 1);
      WalkRunInv(q, st, run, steps, i - 1);
      assert WalkTaken(q, run[i - 1], steps[i - 1], run[i]);
      AgreesNext(q, run[i - 1], steps[i - 1], HitBefore(run, steps, i - 1), View(st.objs, q.o, q.pg));
    }
  }

  /** The page at which the walk arrived is the one the fault asked for. */
  ghost predicate Returns(q: Quest, st: State, w: Walk)
    requires Inv(st) && Locked(q, st)
  {
    w.at.Found? && Agrees(q, st.objs, w.at.page)
  }

  /**
   A walk that has come to its end, whatever happened meanwhile, returns the page that its object
   reads, if and only if the object at which it stood was never collapsed between its steps.
   */
  lemma {:induction false} WalkExact(q: Quest, st: State, run: seq<Walk>, steps: seq<WalkStep>)
    requires WalkRun(q, st, run, steps) && !run[|steps|].at.At?
    ensures Returns(q, st, run[|steps|]) <==> !HitBefore(run, steps, |steps|)
    ensures run[|steps|].at.Crashed? <==> HitBefore(run, steps, |steps|)
  {
    WalkRunInv(q, st, run, steps, |steps|);
    ViewKept(q, st, run, steps, |steps|);
    SizeKept(q, st, run, steps, |steps|);
  }

  lemma {:induction false} SizeNext(q: Quest, w: Walk, s: WalkStep, hit: bool)
    requires WalkInv(q, w, hit) && WalkEnabled(q, w, s) && Locked(q, WalkNext(q, w, s).st)
    ensures WalkNext(q, w, s).st.objs[q.o].size == w.st.objs[q.o].size
  {
    if s.Other? { StepFixed(w.st, s.s, q.o); }
  }

  lemma {:induction false} SizeKept(q: Quest, st: State, run: seq<Walk>, steps: seq<WalkStep>, i: nat)
    requires WalkRun(q, st, run, steps) && i < |run|
    ensures Locked(q, run[i].st) && run[i].st.objs[q.o].size == st.objs[q.o].size
  {
    ViewKept(q, st, run, steps, i);
    if i > 0 {
      SizeKept(q, st, run, steps, i - 1);
      WalkRunInv(q, st, run, steps, i - 1);
      assert WalkTaken(q, run[i - 1], steps[i - 1], run[i]);
      SizeNext(q, run[i - 1], steps[i - 1], HitBefore(run, steps, i - 1));
    }
  }

  // ----- Where it can be hit -----

  /** Below the object right under the fault's there is only the root. */
  ghost predicate Short(q: Quest, objs: Objs)
    requires Linked(objs) && Live(objs, q.o) && objs[q.o].Shadow?
  {
    assert LinkedAt(objs, q.o);
    var b := objs[q.o].below.value;
    objs[b].Root? || (assert LinkedAt(objs, b); objs[objs[b].below.value].Root?)
  }

  /**
   With the lock of its object held, the walk can be hit only at a shadow that is at least two
   objects further down.
   */
  lemma {:induction false} HitDeep(q: Quest, w: Walk, s: WalkStep)
    requires WalkInv(q, w, false) && WalkEnabled(q, w, s) && Hits(w, s)
    ensures w.st.objs[w.at.cur].Shadow? && w.at.cur != w.st.objs[q.o].below.value && !Short(q, w.st.objs)
  {
    FirstBelowSafe(q, w.st, w.at.cur);
    assert LinkedAt(w.st.objs, q.o);
    var b := w.st.objs[q.o].below.value;
    if w.st.objs[b].Shadow? {
      assert LinkedAt(w.st.objs, b);
      assert Beneath(w.st.objs, w.st.objs[b].below.value, w.at.cur);
    }
  }

  lemma {:induction false} ShortSame(q: Quest, st: State, st': State)
    requires Inv(st) && Locked(q, st) && Inv(st') && Locked(q, st') && Short(q, st.objs)
    requires forall o | o in st.objs :: o in st'.objs && SameBelow(st.objs[o], st'.objs[o])
    ensures Short(q, st'.objs)
  {
    assert LinkedAt(st.objs, q.o) && LinkedAt(st'.objs, q.o);
    var b := st.objs[q.o].below.value;
    if st.objs[b].Shadow? { assert LinkedAt(st.objs, b) && LinkedAt(st'.objs, b); }
  }

  /** The walk's own steps, and those of other walks, relink nothing. */
  lemma {:induction false} RelinksNothing(q: Quest, w: Walk, s: WalkStep)
    requires WalkEnabled(q, w, s) && !s.Other?
    ensures var st' := WalkNext(q, w, s).st;
      forall o | o in w.st.objs :: o in st'.objs && SameBelow(w.st.objs[o], st'.objs[o])
  {}

  lemma {:induction false} ShortNext(q: Quest, w: Walk, s: WalkStep, hit: bool)
    requires WalkInv(q, w, hit) && WalkEnabled(q, w, s) && Short(q, w.st.objs)
      && WalkInv(q, WalkNext(q, w, s), hit || Hits(w, s))
    ensures Short(q, WalkNext(q, w, s).st.objs)
  {
    if s.Other? {
      LockKept(q, w.st, s.s);
      if s.s.Collapse? { ShortCollapse(q, w.st, s.s.p); } else { ShortOther(q, w.st, s.s); }
    } else {
      RelinksNothing(q, w, s);
      ShortSame(q, w.st, WalkNext(q, w, s).st);
    }
  }

  lemma {:induction false} ShortCollapse(q: Quest, st: State, p: Id)
    requires Inv(st) && Locked(q, st) && Enabled(st, Collapse(p)) && Safe(st, Collapse(p))
      && !UsesObj(q, st, Collapse(p))
    requires Short(q, st.objs) && Inv(DoCollapse(st, p)) && Locked(q, DoCollapse(st, p))
    ensures Short(q, DoCollapse(st, p).objs)
  {
    var objs, b := DoCollapse(st, p).objs, st.objs[q.o].below.value;
    assert LinkedAt(st.objs, q.o) && LinkedAt(objs, q.o);
    FirstBelowSafe(q, st, p);
    KeptByCollapse(q, st, p);
    CollapseReady(st, p);
    CollapseFixed(st, p, b);
    if st.objs[b].Shadow? {
      assert LinkedAt(st.objs, b);
      CollapseFixed(st, p, st.objs[b].below.value);
    }
  }

  lemma {:induction false} ShortOther(q: Quest, st: State, s: Step)
    requires Inv(st) && Locked(q, st) && Enabled(st, s) && Safe(st, s) && !s.Collapse? && Short(q, st.objs)
    requires Inv(Next(st, s)) && Locked(q, Next(st, s)) && Next(st, s).objs[q.o].below == st.objs[q.o].below
    ensures Short(q, Next(st, s).objs)
  {
    var objs, b := Next(st, s).objs, st.objs[q.o].below.value;
    assert LinkedAt(st.objs, q.o) && LinkedAt(objs, q.o);
    StepFixed(st, s, b);
    if st.objs[b].Shadow? {
      assert LinkedAt(st.objs, b) && LinkedAt(objs, b);
      StepFixed(st, s, st.objs[b].below.value);
    }
  }

  /** So a walk down a chain of at most two objects is safe in every run. */
  lemma {:induction false} ShortSafe(q: Quest, st: State, run: seq<Walk>, steps: seq<WalkStep>, i: nat)
    requires WalkRun(q, st, run, steps) && i < |run| && Short(q, st.objs)
    ensures !HitBefore(run, steps, i) && WalkInv(q, run[i], false) && Short(q, run[i].st.objs)
  {
    WalkRunInv(q, st, run, steps, i);
    if i > 0 {
      ShortSafe(q, st, run, steps, i - 1);
      assert WalkTaken(q, run[i - 1], steps[i - 1], run[i]);
      if Hits(run[i - 1], steps[i - 1]) { HitDeep(q, run[i - 1], steps[i - 1]); }
      ShortNext(q, run[i - 1], steps[i - 1], false);
    } else {
      assert LinkedAt(st.objs, q.o) && LinkedAt(run[0].st.objs, q.o);
      var b := st.objs[q.o].below.value;
      if st.objs[b].Shadow? { assert LinkedAt(st.objs, b) && LinkedAt(run[0].st.objs, b); }
    }
  }

  lemma {:induction false} Strikes(q: Quest, w: Walk, p: Id)
    requires WalkInv(q, w, false) && w.at == At(p) && Collapsible(w.st.objs[p]) && p != q.o
      && w.st.objs[p].kids != [q.o]
    ensures WalkEnabled(q, w, Other(Collapse(p)))
    ensures
      var w1 := WalkNext(q, w, Other(Collapse(p)));
      WalkEnabled(q, w1, Advance) && WalkNext(q, w1, Advance).at == Crashed
  {
    StepSafe(w.st, Collapse(p));
    var w1 := WalkNext(q, w, Other(Collapse(p)));
    OtherInv(q, w, Collapse(p), false);
    AdvanceInv(q, w1, true);
  }

  /** b is right below the fault's object, without the page, and p below b. */
  ghost predicate Deep(q: Quest, st: State, b: Id, p: Id) {
    && Inv(st) && Locked(q, st) && st.objs[q.o].below == Some(b)
    && b in st.objs && st.objs[b].Shadow? && st.objs[b].below == Some(p) && q.pg !in st.objs[b].pages
    && p in st.objs && Collapsible(st.objs[p])
  }

  lemma {:induction false} FirstRound(q: Quest, st: State, b: Id, p: Id)
    requires Deep(q, st, b, p)
    ensures WalkEnabled(q, Begun(q, st), Advance)
    ensures
      var w := WalkNext(q, Begun(q, st), Advance);
      && WalkInv(q, w, false) && w.at == At(p) && Collapsible(w.st.objs[p])
      && p != q.o && w.st.objs[p].kids != [q.o]
  {
    assert LinkedAt(st.objs, q.o) && LinkedAt(st.objs, b);
    CollapseReady(st, p);
    assert b in ShadowsOf(st.objs, p);
    BeginInv(q, st);
    AdvanceInv(q, Begun(q, st), false);
  }

  /**
   A chain of three is not: whenever the second object below may be collapsed, and the first does not
   have the page, there is a run in which the walk fails.
   */
  lemma {:induction false} CollapseBreaks(q: Quest, st: State, b: Id, p: Id)
    returns (run: seq<Walk>, steps: seq<WalkStep>)
    requires Deep(q, st, b, p)
    ensures WalkRun(q, st, run, steps) && run[|steps|].at == Crashed
  {
    FirstRound(q, st, b, p);
    var w0 := Begun(q, st);
    var w1 := WalkNext(q, w0, Advance);
    Strikes(q, w1, p);
    var w2 := WalkNext(q, w1, Other(Collapse(p)));
    steps := [Advance, Other(Collapse(p)), Advance];
    run := [w0, w1, w2, WalkNext(q, w2, Advance)];
    assert WalkTaken(q, run[0], steps[0], run[1]) && WalkTaken(q, run[1], steps[1], run[2]);
    assert WalkTaken(q, run[2], steps[2], run[3]);
  }
}
