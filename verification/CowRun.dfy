/** Whole runs: every address space sees private memory, whatever the sharing underneath. */
module CowRun {
  import opened CowState
  import opened CowSteps
  import opened CowInvariant
  import opened CowMeaning
  import opened Lists

  const EMPTY: State := State(map[], map[], multiset{})

  /** The state after the steps, if every one of them is enabled and safe when its turn comes. */
  ghost function After(steps: seq<Step>): Option<State>
    decreases |steps|
  {
    if steps == [] then Some(EMPTY)
    else
      var before := After(steps[..|steps| - 1]);
      var s := steps[|steps| - 1];
      if before.Some? && Enabled(before.value, s) && Safe(before.value, s) then Some(Next(before.value, s)) else None
  }

  lemma {:induction false} EmptyInv()
    ensures Inv(EMPTY)
  {}

  /** The invariant holds in every reachable state. */
  lemma {:induction false} ReachableInv(steps: seq<Step>)
    requires After(steps).Some?
    ensures Inv(After(steps).value)
    decreases |steps|
  {
    if steps == [] {
      EmptyInv();
    } else {
      var front, s := steps[..|steps| - 1], steps[|steps| - 1];
      ReachableInv(front);
      StepInv(After(front).value, s);
    }
  }

  /** No reachable state trips an assertion: an enabled step can always be taken. */
  lemma {:induction false} NeverStuck(steps: seq<Step>, s: Step)
    requires After(steps).Some? && Enabled(After(steps).value, s)
    ensures After(steps + [s]).Some?
  {
    ReachableInv(steps);
    StepInv(After(steps).value, s);
    assert (steps + [s])[..|steps + [s]| - 1] == steps;
  }

  /** What the file o holds: fixed when it appeared. */
  function FileByte(steps: seq<Step>, o: Id, a: nat): byte
    decreases |steps|
  {
    if steps == [] then 0
    else
      var s := steps[|steps| - 1];
      if s.NewFile? && s.o == o then s.fill(a / PAGE)[a % PAGE] else FileByte(steps[..|steps| - 1], o, a)
  }

  /**
   Private memory, with no sharing at all: a new mapping is zero or the file, a fork or a split
   copies, a store writes the mapping it names, and nothing else matters.
   */
  function Memory(steps: seq<Step>, m: Id, a: nat): byte
    decreases |steps|
  {
    if steps == [] then 0
    else
      var front, s := steps[..|steps| - 1], steps[|steps| - 1];
      if MadeBy(s, m) then (if s.MapFile? then FileByte(front, s.o, a) else 0)
      else if s.Store? && s.m == m && s.a == a then s.v
      else Memory(front, Source(s, m), a)
  }

  /** Which bytes the mapping covers: those asked for, less what was cut off or unmapped; a copy covers the same. */
  function Covers(steps: seq<Step>, m: Id, a: nat): bool
    decreases |steps|
  {
    if steps == [] then false
    else
      var front, s := steps[..|steps| - 1], steps[|steps| - 1];
      Covered(s, m, a, Covers(front, Source(s, m), a))
  }

  /** The address space a mapping belongs to: the one it was made in, or the child's. */
  function Space(steps: seq<Step>, m: Id): nat
    decreases |steps|
  {
    if steps == [] then 0
    else
      var front, s := steps[..|steps| - 1], steps[|steps| - 1];
      if MadeBy(s, m) then s.vas
      else if s.Fork? && Source(s, m) != m then s.dst
      else Space(front, Source(s, m))
  }

  lemma {:induction false} SpaceExactly(steps: seq<Step>, m: Id)
    requires After(steps).Some? && m in After(steps).value.maps
    ensures After(steps).value.maps[m].vas == Space(steps, m)
    decreases |steps|
  {
    if steps != [] {
      var front, s := steps[..|steps| - 1], steps[|steps| - 1];
      var st := After(front).value;
      ReachableInv(front);
      if !MadeBy(s, m) {
        StepSpace(st, s, m);
        SpaceExactly(front, Source(s, m));
        if s.Fork? { ForkMaps(st, s.src, s.dst, s.twins, m); }
      }
    }
  }

  lemma {:induction false} CoversExactly(steps: seq<Step>, m: Id, a: nat)
    requires After(steps).Some?
    ensures InMap(After(steps).value, m, a) <==> Covers(steps, m, a)
    decreases |steps|
  {
    if steps != [] {
      var front, s := steps[..|steps| - 1], steps[|steps| - 1];
      ReachableInv(front);
      CoversExactly(front, Source(s, m), a);
      StepCovers(After(front).value, s, m, a);
    }
  }

  lemma {:induction false} FillKept(steps: seq<Step>, o: Id, a: nat)
    requires After(steps).Some? && o in After(steps).value.objs
    requires After(steps).value.objs[o].Root? && After(steps).value.objs[o].file
    ensures After(steps).value.objs[o].fill(a / PAGE)[a % PAGE] == FileByte(steps, o, a)
    decreases |steps|
  {
    if steps != [] {
      var front, s := steps[..|steps| - 1], steps[|steps| - 1];
      ReachableInv(front);
      if !(s.NewFile? && s.o == o) {
        FileStays(After(front).value, s, o);
        FillKept(front, o, a);
      }
    }
  }

  /** A file always reads as it did when it was opened: no store through a private mapping reaches its pages. */
  lemma {:induction false} FilesKeep(steps: seq<Step>, o: Id, a: nat)
    requires After(steps).Some? && o in After(steps).value.objs
    requires After(steps).value.objs[o].Root? && After(steps).value.objs[o].file
    ensures
      var objs := After(steps).value.objs;
      && Linked(objs) && View(objs, o, a / PAGE)[a % PAGE] == FileByte(steps, o, a)
      && (a / PAGE in objs[o].pages ==> objs[o].pages[a / PAGE][a % PAGE] == FileByte(steps, o, a))
  {
    ReachableInv(steps);
    FillKept(steps, o, a);
  }

  ghost predicate WasFile(a: Objs, b: Objs, o: Id) {
    o in b && b[o].Root? && b[o].file ==> o in a && a[o].Root? && a[o].file && a[o].fill == b[o].fill
  }

  lemma {:induction false} DropFile(st: State, x: Id, o: Id)
    requires Enabled(st, Drop(x)) && Safe(st, Drop(x))
    ensures WasFile(st.objs, DoDrop(st, x).objs, o)
  {}

  lemma {:induction false} CollapseFile(st: State, p: Id, o: Id)
    requires Enabled(st, Collapse(p)) && Safe(st, Collapse(p))
    ensures WasFile(st.objs, DoCollapse(st, p).objs, o)
  {}

  lemma {:induction false} FileStays(st: State, s: Step, o: Id)
    requires Linked(st.objs) && Clean(st.objs) && Enabled(st, s) && Safe(st, s) && !(s.NewFile? && s.o == o)
    ensures WasFile(st.objs, Next(st, s).objs, o)
  {
    match s
    case Fault(m, pg, write) =>
      FaultRefilled(st, m, pg, write);
      if o in st.objs { assert SameLink(st.objs[o], Next(st, s).objs[o]); }
    case Fork(_, dst, twins) => if o in Next(st, s).objs { ForkFiles(st, twins, dst, o); }
    case Collapse(p) => CollapseFile(st, p, o);
    case Drop(x) => DropFile(st, x, o);
    case _ =>
  }

  lemma {:induction false} ForkFiles(st: State, twins: seq<(Id, Id)>, dst: nat, o: Id)
    requires forall i :: 0 <= i < |twins| ==> twins[i].0 in st.maps
    requires AllIn(st) && o in ForkAll(st, twins, dst).objs
    ensures o in st.objs && (ForkAll(st, twins, dst).objs[o].Root? ==>
      st.objs[o].Root? && st.objs[o].file == ForkAll(st, twins, dst).objs[o].file
        && st.objs[o].fill == ForkAll(st, twins, dst).objs[o].fill)
    decreases |twins|
  {
    if twins != [] {
      var rest := twins[1..];
      assert forall i :: 0 <= i < |rest| ==> rest[i] == twins[i + 1];
      ForkFiles(ForkMap(st, twins[0].0, twins[0].1, dst), rest, dst, o);
    }
  }

  lemma {:induction false} ReadsMemory(steps: seq<Step>, m: Id, a: nat)
    requires After(steps).Some? && InMap(After(steps).value, m, a)
    ensures Readable(After(steps).value, m) && ReadByte(After(steps).value, m, a) == Memory(steps, m, a)
    decreases |steps|
  {
    var front, s := steps[..|steps| - 1], steps[|steps| - 1];
    var st := After(front).value;
    ReachableInv(front);
    ReachableInv(steps);
    StepReads(st, s, m, a);
    if MadeBy(s, m) {
      if s.MapFile? { FillKept(front, s.o, a); }
    } else {
      ReadsMemory(front, Source(s, m), a);
    }
  }

  /**
   Copy-on-write refines private memory: in every reachable state there are exactly the mappings
   that private memory has, they cover exactly those bytes, and read exactly what it holds.
   */
  lemma {:induction false} ReadsPrivateMemory(steps: seq<Step>, m: Id, a: nat)
    requires After(steps).Some?
    ensures Covers(steps, m, a) <==> m in After(steps).value.maps && InRange(After(steps).value.maps[m], a)
    ensures Covers(steps, m, a) ==>
      && After(steps).value.maps[m].vas == Space(steps, m) && Readable(After(steps).value, m)
      && ReadByte(After(steps).value, m, a) == Memory(steps, m, a)
  {
    CoversExactly(steps, m, a);
    if Covers(steps, m, a) {
      ReadsMemory(steps, m, a);
      SpaceExactly(steps, m);
    }
  }

  /** Steps that neither make the mapping m, nor store through it, nor take byte a from it. */
  ghost predicate Elsewhere(more: seq<Step>, m: Id, a: nat) {
    forall i :: 0 <= i < |more| ==> Aside(more[i], m, a)
  }

  predicate Aside(s: Step, m: Id, a: nat) {
    && !MadeBy(s, m) && Source(s, m) == m && !(s.Store? && s.m == m)
    && !(s.Unmap? && s.m == m) && !(s.Split? && s.n == m) && !((s.Trim? || s.Split?) && s.m == m && PAGE * s.pg <= a)
  }

  lemma {:induction false} MemoryElsewhere(steps: seq<Step>, more: seq<Step>, m: Id, a: nat)
    requires Elsewhere(more, m, a)
    ensures Memory(steps + more, m, a) == Memory(steps, m, a)
    ensures Covers(steps, m, a) ==> Covers(steps + more, m, a)
    decreases |more|
  {
    if more == [] {
      assert steps + more == steps;
    } else {
      var n := |more| - 1;
      assert (steps + more)[..|steps + more| - 1] == steps + more[..n];
      assert (steps + more)[|steps + more| - 1] == more[n];
      assert Aside(more[n], m, a);
      MemoryElsewhere(steps, more[..n], m, a);
    }
  }

  /**
   Isolation: however long a run goes on, a byte that nobody stores to or unmaps through its own
   mapping is there and reads the same.
   */
  lemma {:induction false} Isolation(steps: seq<Step>, more: seq<Step>, m: Id, a: nat)
    requires After(steps).Some? && InMap(After(steps).value, m, a) && After(steps + more).Some?
    requires Elsewhere(more, m, a)
    ensures InMap(After(steps + more).value, m, a)
    ensures Readable(After(steps).value, m) && Readable(After(steps + more).value, m)
    ensures ReadByte(After(steps + more).value, m, a) == ReadByte(After(steps).value, m, a)
  {
    ReadsPrivateMemory(steps, m, a);
    MemoryElsewhere(steps, more, m, a);
    ReadsPrivateMemory(steps + more, m, a);
  }

  /**
   A child has every byte of its parent and keeps what the parent held at the fork, whatever the
   parent and everybody else do afterwards.
   */
  lemma {:induction false} ChildKeepsForkImage(steps: seq<Step>, src: nat, dst: nat, twins: seq<(Id, Id)>,
    more: seq<Step>, i: nat, a: nat)
    requires After(steps).Some? && i < |twins| && Elsewhere(more, twins[i].1, a)
    requires var forked := steps + [Fork(src, dst, twins)]; After(forked).Some? && After(forked + more).Some?
    requires InMap(After(steps).value, twins[i].0, a)
    ensures
      var end := After(steps + [Fork(src, dst, twins)] + more).value;
      && InMap(end, twins[i].1, a) && Readable(After(steps).value, twins[i].0) && Readable(end, twins[i].1)
      && ReadByte(end, twins[i].1, a) == ReadByte(After(steps).value, twins[i].0, a)
  {
    var forked := steps + [Fork(src, dst, twins)];
    assert forked[..|forked| - 1] == steps;
    TwinParent(twins, i);
    ReadsPrivateMemory(steps, twins[i].0, a);
    MemoryElsewhere(forked, more, twins[i].1, a);
    ReadsPrivateMemory(forked + more, twins[i].1, a);
  }

  /** And it has a copy of every mapping of its parent, as long as nobody unmaps it. */
  lemma {:induction false} ChildHasAll(steps: seq<Step>, src: nat, dst: nat, twins: seq<(Id, Id)>, m: Id)
    requires After(steps).Some? && After(steps + [Fork(src, dst, twins)]).Some?
    requires m in After(steps).value.maps && After(steps).value.maps[m].vas == src
    ensures
      var maps, maps' := After(steps).value.maps, After(steps + [Fork(src, dst, twins)]).value.maps;
      exists n :: n in maps' && maps'[n].vas == dst && maps'[n].obj == maps[m].obj && maps'[n].first == maps[m].first
                  && maps'[n].limit == maps[m].limit
  {
    var forked, st := steps + [Fork(src, dst, twins)], After(steps).value;
    assert forked[..|forked| - 1] == steps;
    ReachableInv(steps);
    AllMapped(st);
    ForkCopies(st, src, dst, twins);
    var i :| 0 <= i < |twins| && twins[i].0 == m;
    assert Twinned(st.maps, After(forked).value.maps, dst, twins[i].0, twins[i].1);
  }
}
