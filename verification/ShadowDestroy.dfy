/** The end of a shadow object (vm_object_unref, vm_shadow_destroy) while its parent is simplified. */
module ShadowDestroy {
  // vm_shadow_simplify of the parent may take a reference on the object through the parent's list,
  // even when the count has just fallen to zero. Steps are single counter operations and locked blocks.

  type Tid = nat

  /**
   What a thread is about to do with the object: join it with its parent, give a reference back,
   look whether it is dead, declare it dead, check the count again, free it.
   */
  datatype Pc = Idle | Join | Release | Check | Kill | Recheck | Free

  /**
   `owned` are the references of mappings and shadows, ref is the counter. `chained` says that the
   object shadows a shadow object, `listed` that it is on that one's list.
   */
  datatype State = State(ref: nat, owned: nat, chained: bool, listed: bool, dead: bool, freed: bool, pc: map<Tid, Pc>)

  /** What a collapse makes the object shadow, if there is one. */
  datatype Move = Stay | ToShadow | ToRoot

  datatype Step = Acquire | Drop(t: Tid) | Begin(t: Tid) | Go(t: Tid, to: Move)

  function At(st: State, t: Tid): Pc { if t in st.pc then st.pc[t] else Idle }

  /** With strict a temporary reference is only taken on an object that has one. */
  predicate Enabled(st: State, s: Step, strict: bool) {
    match s
    case Acquire => st.owned > 0
    case Drop(t) => t in st.pc && st.pc[t].Idle? && st.owned > 0 && st.ref > 0
    case Begin(t) => t in st.pc && st.pc[t].Idle? && st.listed && (strict ==> st.ref > 0)
    case Go(t, to) =>
      && t in st.pc && !st.pc[t].Idle?
      && (st.pc[t].Join? && (st.dead || !st.listed) ==> to.Stay?)
      && (st.pc[t].Release? ==> st.ref > 0)
      && (st.pc[t].Kill? ==> !st.dead)
  }

  /** ref_dec: whoever takes the count to zero goes on to destroy the object. */
  function Dropped(st: State, t: Tid): State
    requires st.ref > 0
  {
    st.(ref := st.ref - 1, pc := st.pc[t := if st.ref == 1 then Check else Idle])
  }

  function Joined(st: State, t: Tid, to: Move): State {
    st.(pc := st.pc[t := Release], chained := st.chained && !to.ToRoot?, listed := st.listed && !to.ToRoot?)
  }

  /** The count is checked again only under the lock of a parent that is a shadow. */
  function Rechecked(st: State, t: Tid): State {
    if st.chained && st.ref > 0 then st.(pc := st.pc[t := Idle])
    else st.(pc := st.pc[t := Free], listed := false)
  }

  function Next(st: State, s: Step): State
    requires Enabled(st, s, false)
  {
    match s
    case Acquire => st.(ref := st.ref + 1, owned := st.owned + 1)
    case Drop(t) => Dropped(st.(owned := st.owned - 1), t)
    case Begin(t) => st.(ref := st.ref + 1, pc := st.pc[t := Join])
    case Go(t, to) =>
      match st.pc[t]
      case Join => Joined(st, t, to)
      case Release => Dropped(st, t)
      case Check => st.(pc := st.pc[t := if st.dead then Idle else Kill])
      case Kill => st.(pc := st.pc[t := Recheck], dead := true)
      case Recheck => Rechecked(st, t)
      case _ => st.(pc := st.pc[t := Idle], freed := true)
  }

  // ----- What is expected -----

  /**
   Nobody uses the object once it is free; it is not declared dead twice; and when nobody refers to
   it or works on it any more, it is free.
   */
  ghost predicate Right(st: State) {
    && (st.freed ==> st.owned == 0 && forall t | t in st.pc :: st.pc[t].Idle?)
    && (st.dead ==> forall t | t in st.pc :: !st.pc[t].Kill?)
    && (st.owned == 0 && (forall t | t in st.pc :: st.pc[t].Idle?) ==> st.freed)
  }

  predicate Initial(st: State) {
    && st.ref == st.owned == 1 && st.listed == st.chained && !st.dead && !st.freed
    && forall t | t in st.pc :: st.pc[t].Idle?
  }

  ghost predicate Taken(st: State, s: Step, st': State, strict: bool) {
    Enabled(st, s, strict) && st' == Next(st, s)
  }

  ghost predicate Path(run: seq<State>, steps: seq<Step>, strict: bool) {
    |run| == |steps| + 1 && forall i | 0 <= i < |steps| :: Taken(run[i], steps[i], run[i + 1], strict)
  }

  ghost predicate IsRun(run: seq<State>, steps: seq<Step>, strict: bool) {
    Path(run, steps, strict) && Initial(run[0])
  }

  ghost predicate AllRight(run: seq<State>) { forall i | 0 <= i < |run| :: Right(run[i]) }

  // ----- Temporary references only on objects that have one -----

  predicate Temporary(c: Pc) { c.Join? || c.Release? }

  predicate Ends(c: Pc) { c.Check? || c.Kill? || c.Recheck? || c.Free? }

  function Temps(pc: map<Tid, Pc>): set<Tid> { set t | t in pc && Temporary(pc[t]) }

  /** Once the count is zero exactly one thread is on its way to free the object. */
  ghost predicate Inv(st: State) {
    && st.ref == st.owned + |Temps(st.pc)|
    && (st.ref > 0 ==> !st.dead && !st.freed && forall t | t in st.pc :: !Ends(st.pc[t]))
    && (forall t, u | t in st.pc && u in st.pc && Ends(st.pc[t]) && Ends(st.pc[u]) :: t == u)
    && (st.freed ==> st.dead && !st.listed && forall t | t in st.pc :: st.pc[t].Idle?)
    && (st.ref == 0 && !st.freed ==> exists t :: t in st.pc && Ends(st.pc[t]))
    && (forall t | t in st.pc && Ends(st.pc[t]) :: st.dead <==> st.pc[t].Recheck? || st.pc[t].Free?)
    && (forall t | t in st.pc && st.pc[t].Free? :: !st.listed)
    && (st.listed ==> st.chained)
  }

  lemma {:induction false} TempsPut(pc: map<Tid, Pc>, t: Tid, c: Pc)
    requires t in pc
    ensures |Temps(pc[t := c])| ==
      |Temps(pc)| - (if Temporary(pc[t]) then 1 else 0) + if Temporary(c) then 1 else 0
  {
    var a, b := Temps(pc), Temps(pc[t := c]);
    assert b == if Temporary(c) then a + {t} else a - {t};
  }

  lemma {:induction false} NoTemps(st: State)
    requires Inv(st) && st.ref == 0
    ensures st.owned == 0 && forall t | t in st.pc :: !Temporary(st.pc[t])
  {
    forall t | t in st.pc ensures !Temporary(st.pc[t]) { assert t !in Temps(st.pc) by { assert Temps(st.pc) == {}; } }
  }

  lemma {:induction false} InvNext(st: State, s: Step)
    requires Inv(st) && Enabled(st, s, true)
    ensures Inv(Next(st, s))
  {
    var st' := Next(st, s);
    if !s.Acquire? { TempsPut(st.pc, s.t, st'.pc[s.t]); }
    if st.ref == 0 { NoTemps(st); }
    if st'.ref == 0 && !st'.freed {
      if st.ref > 0 { assert s.t in st'.pc && Ends(st'.pc[s.t]); }
      else {
        var t :| t in st.pc && Ends(st.pc[t]);
        assert t in st'.pc && Ends(st'.pc[t]);
      }
    }
  }

  lemma {:induction false} InvRight(st: State)
    requires Inv(st)
    ensures Right(st)
  {
    if st.ref == 0 { NoTemps(st); }
    if st.owned == 0 && forall t | t in st.pc :: st.pc[t].Idle? { assert Temps(st.pc) == {}; }
  }

  lemma {:induction false} RunInv(run: seq<State>, steps: seq<Step>, i: nat)
    requires IsRun(run, steps, true) && i < |run|
    ensures Inv(run[i])
  {
    if i == 0 {
      assert Temps(run[0].pc) == {};
    } else {
      RunInv(run, steps, i - 1);
      assert Taken(run[i - 1], steps[i - 1], run[i], true);
      InvNext(run[i - 1], steps[i - 1]);
    }
  }

  // ----- In every run -----

  predicate Late(c: Pc) { c.Recheck? || c.Free? }

  /** At most one thread gets past the assertion. */
  ghost predicate Single(st: State) {
    && (forall t, u | t in st.pc && u in st.pc && Late(st.pc[t]) && Late(st.pc[u]) :: t == u)
    && (forall t | t in st.pc && Late(st.pc[t]) :: st.dead && !st.freed)
    && (st.freed ==> st.dead)
  }

  lemma {:induction false} SingleNext(st: State, s: Step)
    requires Single(st) && Enabled(st, s, false)
    ensures Single(Next(st, s))
  {}

  lemma {:induction false} RunSingle(run: seq<State>, steps: seq<Step>, i: nat)
    requires IsRun(run, steps, false) && i < |run|
    ensures Single(run[i])
  {
    if i > 0 {
      RunSingle(run, steps, i - 1);
      assert Taken(run[i - 1], steps[i - 1], run[i], false);
      SingleNext(run[i - 1], steps[i - 1]);
    }
  }

  /** The object is freed at most once, whatever happens. */
  lemma {:induction false} FreedOnce(run: seq<State>, steps: seq<Step>, i: nat, j: nat)
    requires IsRun(run, steps, false) && i < j < |steps|
    requires steps[i].Go? && At(run[i], steps[i].t).Free?
    ensures !(steps[j].Go? && At(run[j], steps[j].t).Free?)
  {
    assert Taken(run[i], steps[i], run[i + 1], false);
    FreedStays(run, steps, i + 1, j);
    RunSingle(run, steps, j);
  }

  lemma {:induction false} FreedStays(run: seq<State>, steps: seq<Step>, i: nat, j: nat)
    requires Path(run, steps, false) && i <= j < |run| && run[i].freed
    ensures run[j].freed
  {
    if i < j {
      FreedStays(run, steps, i, j - 1);
      assert Taken(run[j - 1], steps[j - 1], run[j], false);
    }
  }

  // ----- A temporary reference on an object whose count is zero -----

  function Last(run: seq<State>): State
    requires run != []
  {
    run[|run| - 1]
  }

  lemma {:induction false} Extend(run: seq<State>, steps: seq<Step>, s: Step)
    returns (run': seq<State>, steps': seq<Step>)
    requires Path(run, steps, false) && Enabled(Last(run), s, false)
    ensures Path(run', steps', false) && run <= run' && Last(run') == Next(Last(run), s)
  {
    run', steps' := run + [Next(Last(run), s)], steps + [s];
    forall i | 0 <= i < |steps'| ensures Taken(run'[i], steps'[i], run'[i + 1], false) {
      if i < |steps| { assert Taken(run[i], steps[i], run[i + 1], false); }
    }
  }

  /** t takes its reference, does nothing, gives it back and looks whether the object is dead. */
  lemma {:induction false} Visit(run: seq<State>, steps: seq<Step>, t: Tid)
    returns (run': seq<State>, steps': seq<Step>)
    requires Path(run, steps, false) && Enabled(Last(run), Begin(t), false) && Last(run).ref == 0
    ensures Path(run', steps', false) && run <= run'
    ensures var st := Last(run); Last(run') == st.(pc := st.pc[t := if st.dead then Idle else Kill])
  {
    var st := Last(run);
    run', steps' := Extend(run, steps, Begin(t));
    run', steps' := Extend(run', steps', Go(t, Stay));
    run', steps' := Extend(run', steps', Go(t, Stay));
    run', steps' := Extend(run', steps', Go(t, Stay));
    assert Last(run').pc == st.pc[t := if st.dead then Idle else Kill];
  }

  /** Before the object is dead: both threads go on to declare it dead. */
  lemma {:induction false} KilledTwice(run: seq<State>, steps: seq<Step>, a: Tid, t: Tid)
    returns (run': seq<State>, steps': seq<Step>)
    requires Path(run, steps, false) && Enabled(Last(run), Begin(t), false) && Last(run).ref == 0
    requires a in Last(run).pc && Last(run).pc[a].Kill? && !Last(run).dead
    ensures Path(run', steps', false) && run <= run' && !Right(Last(run'))
  {
    run', steps' := Visit(run, steps, t);
    run', steps' := Extend(run', steps', Go(a, Stay));
    assert Last(run').dead && Last(run').pc[t].Kill?;
  }

  /** After that: the destroyer gives up, and the reference given back does not destroy a dead object. */
  lemma {:induction false} NeverFreed(run: seq<State>, steps: seq<Step>, a: Tid, t: Tid)
    returns (run': seq<State>, steps': seq<Step>)
    requires Path(run, steps, false) && Enabled(Last(run), Begin(t), false) && Inv(Last(run)) && Last(run).ref == 0
    requires a in Last(run).pc && Last(run).pc[a].Recheck?
    ensures Path(run', steps', false) && run <= run' && !Right(Last(run'))
  {
    var st := Last(run);
    NoTemps(st);
    run', steps' := Extend(run, steps, Begin(t));
    run', steps' := Extend(run', steps', Go(a, Stay));
    run', steps' := Extend(run', steps', Go(t, Stay));
    run', steps' := Extend(run', steps', Go(t, Stay));
    run', steps' := Extend(run', steps', Go(t, Stay));
    assert Last(run').pc == st.pc[a := Idle][t := Idle];
    forall u | u in st.pc && u != a ensures st.pc[u].Idle? { assert !Temporary(st.pc[u]) && !Ends(st.pc[u]); }
  }

  /** Wherever the count is zero and the object can still be found, a temporary reference breaks it. */
  lemma {:induction false} ReferenceBreaks(run: seq<State>, steps: seq<Step>, t: Tid)
    returns (run': seq<State>, steps': seq<Step>)
    requires IsRun(run, steps, true) && Enabled(Last(run), Begin(t), false) && Last(run).ref == 0
    ensures IsRun(run', steps', false) && run <= run' && !AllRight(run')
  {
    RunInv(run, steps, |run| - 1);
    forall i | 0 <= i < |steps| ensures Taken(run[i], steps[i], run[i + 1], false) {
      assert Taken(run[i], steps[i], run[i + 1], true);
    }
    run', steps' := run, steps;
    var a :| a in Last(run).pc && Ends(Last(run).pc[a]);
    if Last(run).pc[a].Recheck? {
      run', steps' := NeverFreed(run', steps', a, t);
    } else {
      if Last(run).pc[a].Check? { run', steps' := Extend(run', steps', Go(a, Stay)); }
      run', steps' := KilledTwice(run', steps', a, t);
    }
    assert !Right(run'[|run'| - 1]);
  }

  /** A collapse onto a root in between makes the destroyer skip its check: the object is freed in use. */
  lemma {:induction false} FreedInUse() returns (run: seq<State>, steps: seq<Step>)
    ensures IsRun(run, steps, false) && Last(run).freed && 1 in Last(run).pc && Last(run).pc[1].Release?
  {
    run, steps := [State(1, 1, true, true, false, false, map[0 := Idle, 1 := Idle])], [];
    run, steps := Extend(run, steps, Drop(0));
    run, steps := Extend(run, steps, Begin(1));
    run, steps := Extend(run, steps, Go(1, ToRoot));
    run, steps := Extend(run, steps, Go(0, Stay));
    run, steps := Extend(run, steps, Go(0, Stay));
    run, steps := Extend(run, steps, Go(0, Stay));
    run, steps := Extend(run, steps, Go(0, Stay));
  }

  /** The end of an object is right in every run if and only if no reference is taken at count zero. */
  lemma {:induction false} GuardExact(strict: bool)
    ensures (forall run: seq<State>, steps: seq<Step> | IsRun(run, steps, strict) :: AllRight(run)) <==> strict
  {
    if strict {
      forall run: seq<State>, steps: seq<Step> | IsRun(run, steps, true) ensures AllRight(run) {
        forall i | 0 <= i < |run| ensures Right(run[i]) {
          RunInv(run, steps, i);
          InvRight(run[i]);
        }
      }
    } else {
      var run, steps := FreedInUse();
      assert !Right(run[|run| - 1]);
    }
  }
}
