/** A run in which a walk down a shadow chain fails, step by step from the empty system. */
module CowWalkRun {
  import opened CowState
  import opened CowSteps
  import opened CowInvariant
  import opened CowMeaning
  import opened CowRun
  import opened CowWalk
  import opened Lists

  function R(ref: nat): Obj { Root(map[], ref, Zero, false, 0) }

  function S(ref: nat, below: Id, depth: nat, demand: nat, kids: seq<Id>): Obj {
    Shadow(map[], ref, PAGE, Some(below), 0, depth, demand, kids)
  }

  function M(vas: nat, obj: Id, flagged: bool): Mapping { Mapping(vas, obj, 0, PAGE, flagged, {}) }

  lemma {:induction false} Extend(steps: seq<Step>, st: State, s: Step, st': State)
    requires After(steps) == Some(st) && Enabled(st, s) && Safe(st, s) && Next(st, s) == st'
    ensures After(steps + [s]) == Some(st')
  {
    assert (steps + [s])[..|steps + [s]| - 1] == steps;
  }

  /** The address space 0, with its only mapping 0, forks to dst. */
  lemma {:induction false} ForkOnce(st: State, dst: nat)
    requires 0 in st.maps && st.maps[0].vas == 0 && dst != 0 && dst !in st.maps && st.maps[0].obj in st.objs
    requires forall m | m in st.maps :: st.maps[m].vas == m && m != dst && st.maps[m].obj in st.objs
    ensures Enabled(st, Fork(0, dst, [(0, dst)])) && Safe(st, Fork(0, dst, [(0, dst)]))
    ensures Next(st, Fork(0, dst, [(0, dst)])) == ForkMap(st, 0, dst, dst)
  {
    var twins := [(0, dst)];
    assert twins[0].0 == 0;
    assert twins[1..] == [];
    assert ForkAll(ForkMap(st, 0, dst, dst), [], dst) == ForkMap(st, 0, dst, dst);
  }

  lemma {:induction false} ForkThird(st: State)
    requires st.maps.Keys == {0, 2} && st.maps[0].vas == 0 && st.maps[2].vas == 2
    requires st.maps[0].obj in st.objs && st.maps[2].obj in st.objs
    ensures Enabled(st, Fork(0, 3, [(0, 3)])) && Safe(st, Fork(0, 3, [(0, 3)]))
    ensures Next(st, Fork(0, 3, [(0, 3)])) == ForkMap(st, 0, 3, 3)
  {
    ForkOnce(st, 3);
  }

  // ----- The states on the way -----

  /** A page of anonymous memory. */
  ghost function T1(): State { State(map[0 := R(1)], map[0 := M(0, 0, false)], multiset{}) }

  /** The address space has forked. */
  ghost function T2(): State {
    State(T1().objs[0 := R(2)], T1().maps[0 := M(0, 0, true)][1 := M(1, 0, true)], multiset{})
  }

  /** The parent writes: 1 shadows 0. */
  ghost function T3(): State {
    State(T2().objs[0 := R(3)][1 := S(1, 0, 1, 0, [])], T2().maps[0 := M(0, 1, false)], multiset{0})
  }

  ghost function T4(): State { State(T3().objs[0 := R(2)], T3().maps, multiset{}) }

  /** The child exits. */
  ghost function T5(): State { State(T4().objs, T4().maps - {1}, multiset{0}) }

  ghost function T6(): State { State(T5().objs[0 := R(1)], T5().maps, multiset{}) }

  /** It forks again. */
  ghost function T7(): State {
    State(T6().objs[1 := S(2, 0, 1, 2, [])], T6().maps[0 := M(0, 1, true)][2 := M(2, 1, true)], multiset{})
  }

  /** Both sides write: 2 and 3 shadow 1. */
  ghost function T8(): State {
    State(T7().objs[1 := S(3, 0, 1, 1, [2])][2 := S(1, 1, 2, 0, [])], T7().maps[0 := M(0, 2, false)], multiset{1})
  }

  ghost function T9(): State { State(T8().objs[1 := S(2, 0, 1, 1, [2])], T8().maps, multiset{}) }

  ghost function T10(): State {
    State(T9().objs[1 := S(3, 0, 1, 0, [2, 3])][3 := S(1, 1, 2, 0, [])], T9().maps[2 := M(2, 3, false)], multiset{1})
  }

  ghost function T11(): State { State(T10().objs[1 := S(2, 0, 1, 0, [2, 3])], T10().maps, multiset{}) }

  /** A third fork, and the parent writes: 4 shadows 2. */
  ghost function T12(): State {
    State(T11().objs[2 := S(2, 1, 2, 2, [])], T11().maps[0 := M(0, 2, true)][3 := M(3, 2, true)], multiset{})
  }

  ghost function T13(): State {
    State(T12().objs[2 := S(3, 1, 2, 1, [4])][4 := S(1, 2, 3, 0, [])], T12().maps[0 := M(0, 4, false)], multiset{2})
  }

  ghost function T14(): State { State(T13().objs[2 := S(2, 1, 2, 1, [4])], T13().maps, multiset{}) }

  // ----- The steps between them -----

  lemma {:induction false} To1()
    ensures Enabled(EMPTY, MapAnon(0, 0, 0, PAGE)) && Safe(EMPTY, MapAnon(0, 0, 0, PAGE))
      && Next(EMPTY, MapAnon(0, 0, 0, PAGE)) == T1()
  {}

  lemma {:induction false} ForkIs2()
    ensures ForkMap(T1(), 0, 1, 1) == T2()
  {}

  lemma {:induction false} To2()
    ensures Enabled(T1(), Fork(0, 1, [(0, 1)])) && Safe(T1(), Fork(0, 1, [(0, 1)]))
      && Next(T1(), Fork(0, 1, [(0, 1)])) == T2()
  {
    ForkIs2();
    ForkOnce(T1(), 1);
  }

  lemma {:induction false} To3()
    ensures Enabled(T2(), Demand(0, 1)) && Safe(T2(), Demand(0, 1)) && Next(T2(), Demand(0, 1)) == T3()
  {
    assert DoDemand(T2(), 0, 1) == T3();
  }

  lemma {:induction false} To4()
    ensures Enabled(T3(), Drop(0)) && Safe(T3(), Drop(0)) && Next(T3(), Drop(0)) == T4()
  {
    assert DoDrop(T3(), 0) == T4();
  }

  lemma {:induction false} To5()
    ensures Enabled(T4(), Unmap(1)) && Safe(T4(), Unmap(1)) && Next(T4(), Unmap(1)) == T5()
  {
    assert DoUnmap(T4(), 1) == T5();
  }

  lemma {:induction false} To6()
    ensures Enabled(T5(), Drop(0)) && Safe(T5(), Drop(0)) && Next(T5(), Drop(0)) == T6()
  {
    assert DoDrop(T5(), 0) == T6();
  }

  lemma {:induction false} ForkIs7()
    ensures ForkMap(T6(), 0, 2, 2) == T7()
  {}

  lemma {:induction false} To7()
    ensures Enabled(T6(), Fork(0, 2, [(0, 2)])) && Safe(T6(), Fork(0, 2, [(0, 2)]))
      && Next(T6(), Fork(0, 2, [(0, 2)])) == T7()
  {
    ForkIs7();
    ForkOnce(T6(), 2);
  }

  lemma {:induction false} To8()
    ensures Enabled(T7(), Demand(0, 2)) && Safe(T7(), Demand(0, 2)) && Next(T7(), Demand(0, 2)) == T8()
  {
    assert [] + [2] == [2];
    assert DoDemand(T7(), 0, 2) == T8();
  }

  lemma {:induction false} To9()
    ensures Enabled(T8(), Drop(1)) && Safe(T8(), Drop(1)) && Next(T8(), Drop(1)) == T9()
  {
    assert DoDrop(T8(), 1) == T9();
  }

  lemma {:induction false} To10()
    ensures Enabled(T9(), Demand(2, 3)) && Safe(T9(), Demand(2, 3)) && Next(T9(), Demand(2, 3)) == T10()
  {
    assert [2] + [3] == [2, 3];
    assert DoDemand(T9(), 2, 3) == T10();
  }

  lemma {:induction false} To11()
    ensures Enabled(T10(), Drop(1)) && Safe(T10(), Drop(1)) && Next(T10(), Drop(1)) == T11()
  {
    assert DoDrop(T10(), 1) == T11();
  }

  lemma {:induction false} MapsThen()
    ensures T11().maps.Keys == {0, 2} && T11().maps[0] == M(0, 2, false) && T11().maps[2] == M(2, 3, false)
    ensures 2 in T11().objs && 3 in T11().objs
  {
    assert T5().maps.Keys == {0};
  }

  lemma {:induction false} ForkIs12()
    ensures ForkMap(T11(), 0, 3, 3) == T12()
  {}

  lemma {:induction false} To12()
    ensures Enabled(T11(), Fork(0, 3, [(0, 3)])) && Safe(T11(), Fork(0, 3, [(0, 3)]))
      && Next(T11(), Fork(0, 3, [(0, 3)])) == T12()
  {
    ForkIs12();
    MapsThen();
    ForkThird(T11());
  }

  lemma {:induction false} To13()
    ensures Enabled(T12(), Demand(0, 4)) && Safe(T12(), Demand(0, 4)) && Next(T12(), Demand(0, 4)) == T13()
  {
    assert [] + [4] == [4];
    assert DoDemand(T12(), 0, 4) == T13();
  }

  lemma {:induction false} To14()
    ensures Enabled(T13(), Drop(2)) && Safe(T13(), Drop(2)) && Next(T13(), Drop(2)) == T14()
  {
    assert DoDrop(T13(), 2) == T14();
  }

  /** The state in which the walk begins is reached. */
  lemma {:induction false} Reached() returns (steps: seq<Step>)
    ensures After(steps) == Some(T14())
  {
    steps := [];
    To1();
    Extend(steps, EMPTY, MapAnon(0, 0, 0, PAGE), T1());
    steps := steps + [MapAnon(0, 0, 0, PAGE)];
    To2();
    Extend(steps, T1(), Fork(0, 1, [(0, 1)]), T2());
    steps := steps + [Fork(0, 1, [(0, 1)])];
    To3();
    Extend(steps, T2(), Demand(0, 1), T3());
    steps := steps + [Demand(0, 1)];
    To4();
    Extend(steps, T3(), Drop(0), T4());
    steps := steps + [Drop(0)];
    To5();
    Extend(steps, T4(), Unmap(1), T5());
    steps := steps + [Unmap(1)];
    To6();
    Extend(steps, T5(), Drop(0), T6());
    steps := steps + [Drop(0)];
    To7();
    Extend(steps, T6(), Fork(0, 2, [(0, 2)]), T7());
    steps := steps + [Fork(0, 2, [(0, 2)])];
    To8();
    Extend(steps, T7(), Demand(0, 2), T8());
    steps := steps + [Demand(0, 2)];
    To9();
    Extend(steps, T8(), Drop(1), T9());
    steps := steps + [Drop(1)];
    To10();
    Extend(steps, T9(), Demand(2, 3), T10());
    steps := steps + [Demand(2, 3)];
    To11();
    Extend(steps, T10(), Drop(1), T11());
    steps := steps + [Drop(1)];
    To12();
    Extend(steps, T11(), Fork(0, 3, [(0, 3)]), T12());
    steps := steps + [Fork(0, 3, [(0, 3)])];
    To13();
    Extend(steps, T12(), Demand(0, 4), T13());
    steps := steps + [Demand(0, 4)];
    To14();
    Extend(steps, T13(), Drop(2), T14());
    steps := steps + [Drop(2)];
  }

  lemma {:induction false} Begins()
    ensures var st := T14();
      0 in st.maps && st.maps[0] == M(0, 4, false) && 2 in st.maps && st.maps[2] == M(2, 3, false)
    ensures var objs := T14().objs; {0, 1, 2, 3, 4} <= objs.Keys && objs[0].Root? && objs[4] == S(1, 2, 3, 0, [])
    ensures var objs := T14().objs;
      objs[1] == S(2, 0, 1, 0, [2, 3]) && objs[2] == S(2, 1, 2, 1, [4]) && objs[3] == S(1, 1, 2, 0, [])
    ensures T14().loose == multiset{}
  {}

  // ----- The walk -----

  /** A write fault on the page of mapping 0, whose object is 4. */
  ghost function Q(): Quest { Quest(0, 4, 0) }

  /** It stands at 1, with a reference, and has let go of 2. */
  ghost predicate AtOne(w: Walk, kids: seq<Id>, ref: nat, loose: nat) {
    && w.at == At(1) && 1 in w.st.objs && w.st.objs[1] == S(ref, 0, 1, 0, kids) && w.st.loose[1] == loose
  }

  lemma {:induction false} Descends(st: State)
    requires st == T14() && Inv(st)
    ensures Locked(Q(), st) && st.objs[4].below.value in st.objs && WalkEnabled(Q(), Begun(Q(), st), Advance)
    ensures
      var w := WalkNext(Q(), Begun(Q(), st), Advance);
      && AtOne(w, [2, 3], 3, 1) && WalkInv(Q(), w, false) && w.st.maps == st.maps
      && 3 in w.st.objs && w.st.objs[3] == S(1, 1, 2, 0, [])
  {
    Begins();
    BeginInv(Q(), st);
    WalkInvNext(Q(), Begun(Q(), st), Advance, false);
  }

  /** The process of mapping 2 exits: its object 3, the other shadow of 1, goes away. */
  lemma {:induction false} OtherExits(w: Walk)
    requires WalkInv(Q(), w, false) && AtOne(w, [2, 3], 3, 1) && 3 in w.st.objs && w.st.objs[3] == S(1, 1, 2, 0, [])
    requires 2 in w.st.maps && w.st.maps[2] == M(2, 3, false)
    ensures WalkEnabled(Q(), w, Other(Unmap(2)))
    ensures
      var w1 := WalkNext(Q(), w, Other(Unmap(2)));
      && AtOne(w1, [2, 3], 3, 1) && WalkInv(Q(), w1, false) && 3 in w1.st.loose
      && 3 in w1.st.objs && w1.st.objs[3] == S(1, 1, 2, 0, [])
  {
    StepSafe(w.st, Unmap(2));
    WalkInvNext(Q(), w, Other(Unmap(2)), false);
  }

  lemma {:induction false} OtherGoes(w: Walk)
    requires WalkInv(Q(), w, false) && AtOne(w, [2, 3], 3, 1) && 3 in w.st.loose
    requires 3 in w.st.objs && w.st.objs[3] == S(1, 1, 2, 0, [])
    ensures WalkEnabled(Q(), w, Other(Drop(3)))
    ensures var w1 := WalkNext(Q(), w, Other(Drop(3))); AtOne(w1, [2], 3, 2) && WalkInv(Q(), w1, false)
  {
    StepSafe(w.st, Drop(3));
    assert Without([2, 3], 3) == [2];
    WalkInvNext(Q(), w, Other(Drop(3)), false);
  }

  lemma {:induction false} ReferenceGoes(w: Walk)
    requires WalkInv(Q(), w, false) && AtOne(w, [2], 3, 2)
    ensures WalkEnabled(Q(), w, Other(Drop(1)))
    ensures var w1 := WalkNext(Q(), w, Other(Drop(1))); AtOne(w1, [2], 2, 1) && WalkInv(Q(), w1, false)
  {
    StepSafe(w.st, Drop(1));
    WalkInvNext(Q(), w, Other(Drop(1)), false);
  }

  lemma {:induction false} Falls(w: Walk) returns (run: seq<Walk>, steps: seq<WalkStep>)
    requires WalkInv(Q(), w, false) && AtOne(w, [2], 2, 1)
    ensures Path(Q(), run, steps) && run[0] == w && run[|steps|].at == Crashed
  {
    Strikes(Q(), w, 1);
    var w1 := WalkNext(Q(), w, Other(Collapse(1)));
    run, steps := [w, w1, WalkNext(Q(), w1, Advance)], [Other(Collapse(1)), Advance];
    assert WalkTaken(Q(), run[0], steps[0], run[1]) && WalkTaken(Q(), run[1], steps[1], run[2]);
  }

  lemma {:induction false} FromLast(w: Walk) returns (run: seq<Walk>, steps: seq<WalkStep>)
    requires WalkInv(Q(), w, false) && AtOne(w, [2], 3, 2)
    ensures Path(Q(), run, steps) && run[0] == w && run[|steps|].at == Crashed
  {
    ReferenceGoes(w);
    run, steps := Falls(WalkNext(Q(), w, Other(Drop(1))));
    Prepend(Q(), w, Other(Drop(1)), run, steps);
    run, steps := [w] + run, [Other(Drop(1))] + steps;
  }

  lemma {:induction false} FromGone(w: Walk) returns (run: seq<Walk>, steps: seq<WalkStep>)
    requires WalkInv(Q(), w, false) && AtOne(w, [2, 3], 3, 1) && 3 in w.st.loose
    requires 3 in w.st.objs && w.st.objs[3] == S(1, 1, 2, 0, [])
    ensures Path(Q(), run, steps) && run[0] == w && run[|steps|].at == Crashed
  {
    OtherGoes(w);
    run, steps := FromLast(WalkNext(Q(), w, Other(Drop(3))));
    Prepend(Q(), w, Other(Drop(3)), run, steps);
    run, steps := [w] + run, [Other(Drop(3))] + steps;
  }

  lemma {:induction false} FromOne(w: Walk) returns (run: seq<Walk>, steps: seq<WalkStep>)
    requires WalkInv(Q(), w, false) && AtOne(w, [2, 3], 3, 1) && 3 in w.st.objs && w.st.objs[3] == S(1, 1, 2, 0, [])
    requires 2 in w.st.maps && w.st.maps[2] == M(2, 3, false)
    ensures Path(Q(), run, steps) && run[0] == w && run[|steps|].at == Crashed
  {
    OtherExits(w);
    run, steps := FromGone(WalkNext(Q(), w, Other(Unmap(2))));
    Prepend(Q(), w, Other(Unmap(2)), run, steps);
    run, steps := [w] + run, [Other(Unmap(2))] + steps;
  }

  /**
   From the empty system: while the walk from 4 stands at 1, the other shadow of 1 goes away, 1 is
   collapsed into 2, and the walk takes a reference on nothing.
   */
  lemma {:induction false} WalkFails() returns (before: seq<Step>, run: seq<Walk>, steps: seq<WalkStep>)
    ensures After(before).Some? && WalkRun(Q(), After(before).value, run, steps) && run[|steps|].at == Crashed
  {
    before := Reached();
    ReachableInv(before);
    Begins();
    Descends(T14());
    var w0 := Begun(Q(), T14());
    run, steps := FromOne(WalkNext(Q(), w0, Advance));
    Prepend(Q(), w0, Advance, run, steps);
    run, steps := [w0] + run, [Advance] + steps;
  }
}
