/** Wait queues (kern/wait.c) and the scheduler's sleep flags (kern/sched.c). */
module SleepHandshake {
  // Any number of threads, waiters and queues; every block under one lock is a step, in any order.

  type Tid = nat
  type Wid = nat
  type Qid = nat

  datatype Run = Running | Ready | Asleep

  /** Where a thread is in wait_sleep_timeout on the waiter w. */
  datatype Pc =
    | Out
    | Check1(w: Wid)             // about to look for an interrupt
    | Enter(w: Wid)              // about to lock the queue and commit
    | Arm(w: Wid)                // in the critical section, about to start the timer
    | Call(w: Wid)               // about to call schedule
    | Back(w: Wid)               // schedule has returned or is about to
    | Stop(w: Wid, over: bool)   // has compared the clock, about to stop the timer
    | Check2(w: Wid)             // about to look for an interrupt again
    | Assert(w: Wid)             // about to assert that it was woken
    | Leave(w: Wid)              // about to take the waiter off the queue

  /**
   doSleep, intable and inted are THREAD_DO_SLEEP, THREAD_INTERRUPTABLE and THREAD_INTERRUPTED;
   intr and timed are what the current wait was called with; armed and late say whether its timer
   is pending and whether its time has come.
   */
  datatype Thread = Thread(run: Run, doSleep: bool, intable: bool, inted: bool, pc: Pc, intr: bool, timed: bool,
    armed: bool, late: bool)

  /** done and sleep are WAIT_DONE and WAIT_SLEEP. */
  datatype Waiter = Waiter(owner: Tid, q: Qid, done: bool, sleep: bool)

  /** flight: queues locked by a waker that has marked this waiter and not yet woken its thread. */
  datatype State = State(threads: map<Tid, Thread>, waiters: map<Wid, Waiter>, flight: map<Qid, Wid>)

  datatype Step =
    | Prep(t: Tid, w: Wid, q: Qid)
    | Drop(t: Tid, w: Wid)
    | Start(t: Tid, w: Wid, intr: bool, timed: bool)
    | Go(t: Tid)
    | Preempt(t: Tid)
    | Dispatch(t: Tid)
    | Tick(t: Tid)
    | Fire(t: Tid)
    | Interrupt(t: Tid)
    | Clear(t: Tid)
    | Mark(w: Wid)
    | Deliver(q: Qid)

  // ----- The scheduler -----

  /** sched_wakeup_thread */
  function Awaken(th: Thread): Thread {
    var r := if th.run == Asleep then th.(run := Ready) else if th.run == Running then th.(doSleep := false) else th;
    r.(intable := false)
  }

  /** The first half of do_schedule. */
  function Yield(th: Thread): Thread { th.(run := if th.doSleep then Asleep else Ready, doSleep := false) }

  /** sched_set_inactive */
  function SetInactive(th: Thread): Thread {
    if th.intr && th.inted then th else th.(intable := th.intr, doSleep := true)
  }

  /** sched_interrupt */
  function Interrupted(th: Thread): Thread {
    (if !th.inted && th.intable then Awaken(th) else th).(inted := true)
  }

  // ----- Waiting -----

  ghost predicate Enabled(st: State, s: Step) {
    match s
    case Prep(t, w, q) => AtRest(st, t) && w !in st.waiters && q !in st.flight
    case Drop(t, w) => AtRest(st, t) && Owns(st, t, w) && st.waiters[w].q !in st.flight
    case Start(t, w, intr, timed) => AtRest(st, t) && Owns(st, t, w) && (timed ==> intr)
    case Go(t) => t in st.threads && st.threads[t].run == Running && st.threads[t].pc != Out && QueueFree(st, t)
    case Preempt(t) => t in st.threads && st.threads[t].run == Running && !st.threads[t].pc.Arm?
    case Dispatch(t) => t in st.threads && st.threads[t].run == Ready
    case Tick(t) => t in st.threads && st.threads[t].armed
    case Fire(t) => t in st.threads && st.threads[t].armed && st.threads[t].late
    case Interrupt(t) => t in st.threads
    case Clear(t) => AtRest(st, t)
    case Mark(w) => w in st.waiters && !st.waiters[w].done && st.waiters[w].q !in st.flight
    case Deliver(q) => q in st.flight && st.flight[q] in st.waiters && st.waiters[st.flight[q]].owner in st.threads
  }

  predicate AtRest(st: State, t: Tid) { t in st.threads && st.threads[t].run == Running && st.threads[t].pc == Out }

  predicate Owns(st: State, t: Tid, w: Wid) { w in st.waiters && st.waiters[w].owner == t }

  /** Steps that take the queue's lock wait for a waker to be through. */
  predicate QueueFree(st: State, t: Tid)
    requires t in st.threads && st.threads[t].pc != Out
  {
    var p := st.threads[t].pc;
    p.w in st.waiters && (p.Enter? || p.Leave? ==> st.waiters[p.w].q !in st.flight)
  }

  function Put(st: State, t: Tid, th: Thread): State { st.(threads := st.threads[t := th]) }

  /** The thread after its next step in wait_sleep_timeout; done tells whether its waiter was woken. */
  function Stepped(th: Thread, done: bool): Thread
    requires th.pc != Out
  {
    match th.pc
    case Check1(w) => th.(pc := if th.inted then Leave(w) else Enter(w))
    case Enter(w) => if done then th.(pc := Out) else SetInactive(th).(pc := if th.timed then Arm(w) else Call(w))
    case Arm(w) => th.(armed := true, pc := Call(w))
    case Call(w) => Yield(th).(pc := Back(w))
    case Back(w) => th.(pc := if th.timed then Stop(w, th.late) else Check2(w))
    case Stop(w, over) => th.(armed := false, pc := if over then Leave(w) else Check2(w))
    case Check2(w) => th.(pc := if th.intr && th.inted then Leave(w) else Assert(w))
    case Assert(_) => th.(pc := Out)
    case Leave(_) => th.(pc := Out)
  }

  /** A waiter is marked as sleeping on entering the wait and off the queue on leaving it. */
  ghost function DoGo(st: State, t: Tid): State
    requires Enabled(st, Go(t))
  {
    var th, w := st.threads[t], st.threads[t].pc.w;
    var th' := Stepped(th, st.waiters[w].done);
    Put(st, t, th').(waiters := if th'.pc == Out then st.waiters - {w}
                                else if th.pc.Enter? then st.waiters[w := st.waiters[w].(sleep := true)]
                                else st.waiters)
  }

  /** What the scheduler, a timer or a waker does to a thread, and the call of a wait. */
  function Acted(th: Thread, s: Step): Thread {
    match s
    case Start(_, w, intr, timed) =>
      th.(pc := if intr then Check1(w) else Enter(w), intr := intr, timed := timed, armed := false, late := false)
    case Preempt(_) => Yield(th)
    case Dispatch(_) => th.(run := Running)
    case Tick(_) => th.(late := true)
    case Fire(_) => Awaken(th).(armed := false)
    case Interrupt(_) => Interrupted(th)
    case Clear(_) => th.(inted := false)
    case Deliver(_) => Awaken(th)
    case _ => th
  }

  ghost function DoMark(st: State, w: Wid): State
    requires w in st.waiters
  {
    var x := st.waiters[w];
    State(st.threads, st.waiters[w := x.(done := true)], if x.sleep then st.flight[x.q := w] else st.flight)
  }

  ghost function Next(st: State, s: Step): State
    requires Enabled(st, s)
  {
    match s
    case Prep(t, w, q) => st.(waiters := st.waiters[w := Waiter(t, q, false, false)])
    case Drop(t, w) => st.(waiters := st.waiters - {w})
    case Go(t) => DoGo(st, t)
    case Mark(w) => DoMark(st, w)
    case Deliver(q) =>
      var t := st.waiters[st.flight[q]].owner;
      Put(st, t, Acted(st.threads[t], s)).(flight := st.flight - {q})
    case _ => Put(st, s.t, Acted(st.threads[s.t], s))
  }

  // ----- Invariant -----

  predicate Sleepy(th: Thread) { th.doSleep || th.run == Asleep }

  predicate Committed(p: Pc) { p.Arm? || p.Call? || p.Back? || p.Stop? || p.Check2? || p.Assert? }

  /** A waker is between marking w and waking its thread. */
  ghost predicate InFlight(st: State, w: Wid) {
    w in st.waiters && st.waiters[w].q in st.flight && st.flight[st.waiters[w].q] == w
  }

  ghost predicate Woken(st: State, w: Wid) { w in st.waiters && st.waiters[w].done && !InFlight(st, w) }

  predicate Flags(th: Thread) {
    && !(th.inted && th.intable)
    && (th.intable ==> Sleepy(th))
    && (th.doSleep ==> th.run == Running && (th.pc.Arm? || th.pc.Call?))
    && (th.run == Asleep ==> th.pc.Call? || th.pc.Back?)
    && (th.armed ==> th.timed && (th.pc.Call? || th.pc.Back? || th.pc.Stop?))
    && (th.timed ==> th.intr) && (th.pc.Arm? ==> th.timed) && (th.pc.Check1? ==> th.intr)
  }

  /** Asleep or about to be: nobody has woken the thread yet, and all that may wake it still can. */
  ghost predicate Sleeping(st: State, th: Thread)
    requires th.pc != Out
  {
    && !Woken(st, th.pc.w) && (th.intable <==> th.intr) && (th.timed ==> th.pc.Arm? || th.armed)
  }

  /** Awake again: woken, interrupted or out of time, and the checks that follow find out which. */
  ghost predicate Awake(st: State, th: Thread)
    requires th.pc != Out
  {
    match th.pc
    case Arm(w) => Woken(st, w) || (th.intr && th.inted)
    case Call(w) => Woken(st, w) || (th.intr && th.inted) || (th.timed && th.late && !th.armed)
    case Back(w) => Woken(st, w) || (th.intr && th.inted) || (th.timed && th.late && !th.armed)
    case Stop(w, over) => if over then th.timed && th.late else Woken(st, w) || (th.intr && th.inted)
    case Check2(w) => Woken(st, w) || (th.intr && th.inted)
    case Assert(w) => Woken(st, w)
    case Leave(_) => (th.intr && th.inted) || (th.timed && th.late)
    case _ => true
  }

  ghost predicate ThreadOk(st: State, t: Tid)
    requires t in st.threads
  {
    var th := st.threads[t];
    && Flags(th)
    && (th.pc != Out ==>
          && Owns(st, t, th.pc.w)
          && (Committed(th.pc) ==> st.waiters[th.pc.w].sleep)
          && (th.pc.Check1? || th.pc.Enter? ==> !st.waiters[th.pc.w].sleep)
          && (if Sleepy(th) then Sleeping(st, th) else Awake(st, th)))
  }

  /** A waiter marked as sleeping belongs to a thread that is in that very wait. */
  ghost predicate WaiterOk(st: State, w: Wid)
    requires w in st.waiters
  {
    var t := st.waiters[w].owner;
    t in st.threads && (st.waiters[w].sleep ==> st.threads[t].pc != Out && st.threads[t].pc.w == w)
  }

  ghost predicate FlightOk(st: State, q: Qid)
    requires q in st.flight
  {
    var w := st.flight[q];
    w in st.waiters && st.waiters[w].q == q && st.waiters[w].done && st.waiters[w].sleep
  }

  ghost predicate Inv(st: State) {
    && (forall t {:trigger ThreadOk(st, t)} | t in st.threads :: ThreadOk(st, t))
    && (forall w {:trigger WaiterOk(st, w)} | w in st.waiters :: WaiterOk(st, w))
    && (forall q {:trigger FlightOk(st, q)} | q in st.flight :: FlightOk(st, q))
  }

  // ----- Every step keeps it -----

  /** A thread is not affected by changes that leave it, its waiter and that waiter's queue alone. */
  lemma {:induction false} OtherThread(st: State, st': State, x: Tid)
    requires x in st.threads && ThreadOk(st, x) && x in st'.threads && st'.threads[x] == st.threads[x]
    requires st.threads[x].pc != Out ==>
      var w := st.threads[x].pc.w;
      w in st'.waiters && st'.waiters[w] == st.waiters[w] && (InFlight(st', w) <==> InFlight(st, w))
    ensures ThreadOk(st', x)
  {}

  predicate OneThread(s: Step) { s.Preempt? || s.Dispatch? || s.Tick? || s.Fire? || s.Interrupt? || s.Clear? }

  lemma {:induction false} OneThreadInv(st: State, s: Step)
    requires Inv(st) && Enabled(st, s) && OneThread(s)
    ensures Inv(Next(st, s))
  {
    var st' := Next(st, s);
    assert ThreadOk(st, s.t);
    forall x | x in st'.threads ensures ThreadOk(st', x) {
      if x != s.t { OtherThread(st, st', x); }
    }
    forall w | w in st'.waiters ensures WaiterOk(st', w) { assert WaiterOk(st, w); }
    forall q | q in st'.flight ensures FlightOk(st', q) { assert FlightOk(st, q); }
  }

  lemma {:induction false} RestInv(st: State, s: Step)
    requires Inv(st) && Enabled(st, s) && (s.Prep? || s.Drop? || s.Start?)
    ensures Inv(Next(st, s))
  {
    var st' := Next(st, s);
    assert ThreadOk(st, s.t);
    if !s.Prep? { assert WaiterOk(st, s.w); }
    forall x | x in st'.threads ensures ThreadOk(st', x) {
      assert ThreadOk(st, x);
      if x != s.t { OtherThread(st, st', x); }
    }
    forall w | w in st'.waiters ensures WaiterOk(st', w) { if w in st.waiters { assert WaiterOk(st, w); } }
    forall q | q in st'.flight ensures FlightOk(st', q) { assert FlightOk(st, q); }
  }

  lemma {:induction false} MarkInv(st: State, w: Wid)
    requires Inv(st) && Enabled(st, Mark(w))
    ensures Inv(DoMark(st, w))
  {
    var st' := DoMark(st, w);
    forall x | x in st'.threads ensures ThreadOk(st', x) {
      assert ThreadOk(st, x);
      if st.threads[x].pc != Out && st.threads[x].pc.w != w {
        var v := st.threads[x].pc.w;
        if st.waiters[v].q in st.flight { assert FlightOk(st, st.waiters[v].q); }
        OtherThread(st, st', x);
      }
    }
    forall v | v in st'.waiters ensures WaiterOk(st', v) { assert WaiterOk(st, v); }
    forall q | q in st'.flight ensures FlightOk(st', q) { if q in st.flight { assert FlightOk(st, q); } }
  }

  lemma {:induction false} DeliverInv(st: State, q: Qid)
    requires Inv(st) && Enabled(st, Deliver(q))
    ensures Inv(Next(st, Deliver(q)))
  {
    var st', w := Next(st, Deliver(q)), st.flight[q];
    var t := st.waiters[w].owner;
    assert FlightOk(st, q) && WaiterOk(st, w) && ThreadOk(st, t);
    forall x | x in st'.threads ensures ThreadOk(st', x) {
      assert ThreadOk(st, x);
      if x != t { OtherThread(st, st', x); }
    }
    forall v | v in st'.waiters ensures WaiterOk(st', v) { assert WaiterOk(st, v); }
    forall r | r in st'.flight ensures FlightOk(st', r) { assert FlightOk(st, r); }
  }

  lemma {:induction false} GoThread(st: State, t: Tid)
    requires Inv(st) && Enabled(st, Go(t))
    ensures ThreadOk(DoGo(st, t), t)
  {
    assert ThreadOk(st, t);
    var q := st.waiters[st.threads[t].pc.w].q;
    if q in st.flight { assert FlightOk(st, q); }
  }

  /** A thread's own step touches only itself and its current waiter. */
  lemma {:induction false} GoFrame(st: State, t: Tid)
    requires Enabled(st, Go(t))
    ensures
      var st', w := DoGo(st, t), st.threads[t].pc.w;
      && st'.flight == st.flight && st'.threads == st.threads[t := st'.threads[t]]
      && (forall v | v != w ::
        (v in st'.waiters <==> v in st.waiters) && (v in st.waiters ==> st'.waiters[v] == st.waiters[v]))
  {}

  lemma {:induction false} GoWaiter(st: State, t: Tid)
    requires Inv(st) && Enabled(st, Go(t))
    ensures
      var st', w := DoGo(st, t), st.threads[t].pc.w;
      && (w in st'.waiters ==> WaiterOk(st', w))
      && (w !in st'.waiters ==> st.waiters[w].q !in st.flight || st.flight[st.waiters[w].q] != w)
      && (w in st'.waiters ==>
        st'.waiters[w].q == st.waiters[w].q && (st.waiters[w].sleep ==> st'.waiters[w] == st.waiters[w]))
  {
    assert ThreadOk(st, t) && WaiterOk(st, st.threads[t].pc.w);
  }

  lemma {:induction false} GoInv(st: State, t: Tid)
    requires Inv(st) && Enabled(st, Go(t))
    ensures Inv(DoGo(st, t))
  {
    var st' := DoGo(st, t);
    GoFrame(st, t);
    GoWaiter(st, t);
    GoThread(st, t);
    assert ThreadOk(st, t);
    GoRest(st, st', t, st.threads[t].pc.w);
  }

  lemma {:induction false} GoRest(st: State, st': State, t: Tid, w: Wid)
    requires Inv(st) && t in st.threads && t in st'.threads && ThreadOk(st', t) && Owns(st, t, w)
    requires st'.flight == st.flight && st'.threads == st.threads[t := st'.threads[t]]
    requires forall v | v != w ::
      (v in st'.waiters <==> v in st.waiters) && (v in st.waiters ==> st'.waiters[v] == st.waiters[v])
    requires w in st'.waiters ==>
      WaiterOk(st', w) && st'.waiters[w].q == st.waiters[w].q
      && (st.waiters[w].sleep ==> st'.waiters[w] == st.waiters[w])
    requires w !in st'.waiters ==> st.waiters[w].q !in st.flight || st.flight[st.waiters[w].q] != w
    requires st.threads[t].pc != Out && st.threads[t].pc.w == w
    ensures Inv(st')
  {
    forall x | x in st'.threads ensures ThreadOk(st', x) {
      assert ThreadOk(st, x);
      if x != t { OtherThread(st, st', x); }
    }
    forall v | v in st'.waiters ensures WaiterOk(st', v) { assert WaiterOk(st, v); }
    forall q | q in st'.flight ensures FlightOk(st', q) { assert FlightOk(st, q); }
  }

  lemma {:induction false} InvNext(st: State, s: Step)
    requires Inv(st) && Enabled(st, s)
    ensures Inv(Next(st, s))
  {
    match s
    case Go(t) => GoInv(st, t);
    case Mark(w) => MarkInv(st, w);
    case Deliver(q) => DeliverInv(st, q);
    case Prep(_, _, _) => RestInv(st, s);
    case Drop(_, _) => RestInv(st, s);
    case Start(_, _, _, _) => RestInv(st, s);
    case _ => OneThreadInv(st, s);
  }

  // ----- Whole runs -----

  ghost predicate Init(st: State) {
    && st.waiters == map[] && st.flight == map[]
    && forall t | t in st.threads ::
         var th := st.threads[t];
         th.pc == Out && th.run != Asleep && !th.doSleep && !th.intable && !th.armed && (th.timed ==> th.intr)
  }

  ghost predicate IsRun(run: seq<State>, steps: seq<Step>) {
    && |run| == |steps| + 1 && Init(run[0])
    && forall i | 0 <= i < |steps| :: Taken(run[i], steps[i], run[i + 1])
  }

  ghost predicate Taken(st: State, s: Step, st': State) { Enabled(st, s) && st' == Next(st, s) }

  lemma {:induction false} RunInv(run: seq<State>, steps: seq<Step>, i: nat)
    requires IsRun(run, steps) && i < |run|
    ensures Inv(run[i])
  {
    if i > 0 {
      RunInv(run, steps, i - 1);
      assert Taken(run[i - 1], steps[i - 1], run[i]);
      InvNext(run[i - 1], steps[i - 1]);
    }
  }

  /**
   The scheduler flags in every reachable state: an interrupted thread is not interruptible, and
   an interruptible one is asleep or about to be.
   */
  lemma {:induction false} FlagsExclusive(run: seq<State>, steps: seq<Step>, i: nat, t: Tid)
    requires IsRun(run, steps) && i < |run| && t in run[i].threads
    ensures var th := run[i].threads[t]; !(th.inted && th.intable) && (th.intable ==> th.doSleep || th.run == Asleep)
  {
    RunInv(run, steps, i);
    assert ThreadOk(run[i], t);
  }

  /** No lost wakeup: a sleeping waiter that was marked, by a waker that is through, has an awake thread. */
  lemma {:induction false} NoLostWakeup(run: seq<State>, steps: seq<Step>, i: nat, w: Wid)
    requires IsRun(run, steps) && i < |run| && w in run[i].waiters && run[i].waiters[w].done && run[i].waiters[w].sleep
    requires !InFlight(run[i], w)
    ensures var t := run[i].waiters[w].owner;
      t in run[i].threads && !run[i].threads[t].doSleep && run[i].threads[t].run != Asleep
  {
    RunInv(run, steps, i);
    assert WaiterOk(run[i], w) && ThreadOk(run[i], run[i].waiters[w].owner);
  }

  /** No lost interrupt, no lost timeout: either one finds the thread of such a wait awake. */
  lemma {:induction false} FlagsHeeded(run: seq<State>, steps: seq<Step>, i: nat, t: Tid)
    requires IsRun(run, steps) && i < |run| && t in run[i].threads && run[i].threads[t].pc != Out
    ensures var th := run[i].threads[t];
      && (th.intr && th.inted ==> !Sleepy(th))
      && (th.timed && th.late && !th.armed && !th.pc.Arm? ==> !Sleepy(th))
  {
    RunInv(run, steps, i);
    assert ThreadOk(run[i], t);
  }

  /** A thread's own step leaves alone what others tell it, and what its wait was called with. */
  lemma {:induction false} SteppedKeeps(th: Thread, done: bool)
    requires th.pc != Out
    ensures
      var th' := Stepped(th, done);
      && (th'.inted <==> th.inted) && (th'.late <==> th.late)
      && (th'.pc != Out ==> th'.pc.w == th.pc.w && (th'.intr <==> th.intr) && (th'.timed <==> th.timed))
  {
    match th.pc
    case Check1(_) =>
    case Enter(_) =>
    case Arm(_) =>
    case Call(_) =>
    case Back(_) =>
    case Stop(_, _) =>
    case Check2(_) =>
    case Assert(_) =>
    case Leave(_) =>
  }

  lemma {:induction false} ActedKeeps(th: Thread, s: Step)
    ensures
      var th' := Acted(th, s);
      && (th'.inted <==> s.Interrupt? || (th.inted && !s.Clear?))
      && (th'.late <==> s.Tick? || (th.late && !s.Start?))
      && (!s.Start? ==> th'.pc == th.pc && (th'.intr <==> th.intr) && (th'.timed <==> th.timed))
  {}

  /** The thread that a step of the scheduler or a waker changes. */
  ghost predicate Touches(st: State, s: Step, t: Tid)
    requires Enabled(st, s)
  {
    match s
    case Deliver(q) => st.waiters[st.flight[q]].owner == t
    case Prep(_, _, _) => false
    case Drop(_, _) => false
    case Mark(_) => false
    case _ => s.t == t
  }

  lemma {:induction false} Untouched(st: State, s: Step, t: Tid)
    requires Enabled(st, s) && !s.Go? && t in st.threads && !Touches(st, s, t)
    ensures t in Next(st, s).threads && Next(st, s).threads[t] == st.threads[t]
  {}

  lemma {:induction false} Touched(st: State, s: Step, t: Tid)
    requires Enabled(st, s) && !s.Go? && t in st.threads && Touches(st, s, t)
    ensures t in Next(st, s).threads && Next(st, s).threads[t] == Acted(st.threads[t], s)
  {}

  lemma {:induction false} FlagsNext(st: State, s: Step, t: Tid)
    requires Inv(st) && Enabled(st, s) && t in st.threads
    ensures
      var st' := Next(st, s);
      && t in st'.threads
      && (st'.threads[t].inted <==> s == Interrupt(t) || (st.threads[t].inted && s != Clear(t)))
      && (st'.threads[t].late <==> s == Tick(t) || (st.threads[t].late && !(s.Start? && s.t == t)))
  {
    if s.Go? {
      GoFrame(st, s.t);
      SteppedKeeps(st.threads[s.t], st.waiters[st.threads[s.t].pc.w].done);
    } else if Touches(st, s, t) {
      Touched(st, s, t);
      ActedKeeps(st.threads[t], s);
    } else {
      Untouched(st, s, t);
    }
  }

  /** An interrupt is pending exactly if there was one after the thread last asked for them. */
  lemma {:induction false} InterruptedExactly(run: seq<State>, steps: seq<Step>, j: nat, t: Tid)
    requires IsRun(run, steps) && j < |run| && t in run[0].threads && !run[0].threads[t].inted
    ensures t in run[j].threads
    ensures run[j].threads[t].inted <==>
      exists i | 0 <= i < j :: steps[i] == Interrupt(t) && forall k | i < k < j :: steps[k] != Clear(t)
  {
    if j > 0 {
      InterruptedExactly(run, steps, j - 1, t);
      RunInv(run, steps, j - 1);
      assert Taken(run[j - 1], steps[j - 1], run[j]);
      FlagsNext(run[j - 1], steps[j - 1], t);
    }
  }

  lemma {:induction false} InterruptStays(run: seq<State>, steps: seq<Step>, i: nat, j: nat, t: Tid)
    requires IsRun(run, steps) && i < j < |run| && steps[i] == Interrupt(t)
    requires forall k | i < k < j :: steps[k] != Clear(t)
    ensures t in run[j].threads && run[j].threads[t].inted
  {
    if j > i + 1 { InterruptStays(run, steps, i, j - 1, t); }
    RunInv(run, steps, j - 1);
    assert Taken(run[j - 1], steps[j - 1], run[j]);
    FlagsNext(run[j - 1], steps[j - 1], t);
  }

  /**
   No lost interrupt: whatever the thread was doing when the interrupt came, until it has asked for
   it the thread does not sleep in an interruptible wait.
   */
  lemma {:induction false} NoLostInterrupt(run: seq<State>, steps: seq<Step>, i: nat, j: nat, t: Tid)
    requires IsRun(run, steps) && i < j < |run| && steps[i] == Interrupt(t)
    requires forall k | i < k < j :: steps[k] != Clear(t)
    ensures t in run[j].threads && run[j].threads[t].inted
    ensures var th := run[j].threads[t]; th.pc != Out && th.intr ==> !th.doSleep && th.run != Asleep
  {
    InterruptStays(run, steps, i, j, t);
    if run[j].threads[t].pc != Out { FlagsHeeded(run, steps, j, t); }
  }

  lemma {:induction false} LateStays(run: seq<State>, steps: seq<Step>, i: nat, j: nat, t: Tid)
    requires IsRun(run, steps) && i < j < |run| && steps[i] == Tick(t)
    requires forall k | i < k < j :: !(steps[k].Start? && steps[k].t == t)
    ensures t in run[j].threads && run[j].threads[t].late
  {
    if j > i + 1 { LateStays(run, steps, i, j - 1, t); }
    RunInv(run, steps, j - 1);
    assert Taken(run[j - 1], steps[j - 1], run[j]);
    FlagsNext(run[j - 1], steps[j - 1], t);
  }

  /** No lost timeout: once the time of a wait is over its thread is awake, or its timer can fire. */
  lemma {:induction false} NoLostTimeout(run: seq<State>, steps: seq<Step>, i: nat, j: nat, t: Tid)
    requires IsRun(run, steps) && i < j < |run| && steps[i] == Tick(t)
    requires forall k | i < k < j :: !(steps[k].Start? && steps[k].t == t)
    ensures t in run[j].threads
    ensures var th := run[j].threads[t]; th.pc != Out && th.timed && Sleepy(th) && !th.pc.Arm? ==>
      Enabled(run[j], Fire(t)) && !Sleepy(Next(run[j], Fire(t)).threads[t])
  {
    LateStays(run, steps, i, j, t);
    RunInv(run, steps, j);
    assert ThreadOk(run[j], t);
  }

  lemma {:induction false} MarkedNext(st: State, s: Step, w: Wid)
    requires Inv(st) && Enabled(st, s) && w in Next(st, s).waiters
    ensures Next(st, s).waiters[w].done <==> w in st.waiters && (s == Mark(w) || st.waiters[w].done)
  {
    if s.Go? { assert ThreadOk(st, s.t); }
  }

  /** A waiter is marked as woken exactly if a waker came since it was prepared. */
  lemma {:induction false} MarkedExactly(run: seq<State>, steps: seq<Step>, j: nat, w: Wid)
    requires IsRun(run, steps) && j < |run| && w in run[j].waiters
    ensures run[j].waiters[w].done <==>
      exists i | 0 <= i < j :: steps[i] == Mark(w) && forall k | i < k < j :: w in run[k].waiters
  {
    if j > 0 {
      RunInv(run, steps, j - 1);
      assert Taken(run[j - 1], steps[j - 1], run[j]);
      MarkedNext(run[j - 1], steps[j - 1], w);
      if w in run[j - 1].waiters {
        MarkedExactly(run, steps, j - 1, w);
      } else {
        forall i | 0 <= i < j && steps[i] == Mark(w) ensures exists k | i < k < j :: w !in run[k].waiters {
          assert i < j - 1 && w !in run[j - 1].waiters;
        }
      }
    }
  }

  /** A wait does not begin to sleep after its wakeup, and does not sleep on once the waker is through. */
  lemma {:induction false} WakeupKept(run: seq<State>, steps: seq<Step>, i: nat, j: nat, t: Tid)
    requires IsRun(run, steps) && i < j < |run| && t in run[j].threads && run[j].threads[t].pc != Out
    requires var w := run[j].threads[t].pc.w;
      steps[i] == Mark(w) && (forall k | i < k <= j :: w in run[k].waiters) && !InFlight(run[j], w)
    ensures !Sleepy(run[j].threads[t])
  {
    MarkedExactly(run, steps, j, run[j].threads[t].pc.w);
    RunInv(run, steps, j);
    assert ThreadOk(run[j], t);
  }

  /**
   A wait returns for a reason: without an error only if its waiter was woken, with one only if the
   thread was interrupted or the time is over.
   */
  lemma {:induction false} WaitReturns(run: seq<State>, steps: seq<Step>, i: nat, t: Tid)
    requires IsRun(run, steps) && i < |steps| && t in run[i].threads && run[i].threads[t].pc != Out
    requires t in run[i + 1].threads && run[i + 1].threads[t].pc == Out
    ensures var th := run[i].threads[t];
      && steps[i] == Go(t) && th.pc.w in run[i].waiters && th.pc.w !in run[i + 1].waiters
      && (if th.pc.Leave? then (th.intr && th.inted) || (th.timed && th.late) else run[i].waiters[th.pc.w].done)
  {
    RunInv(run, steps, i);
    assert Taken(run[i], steps[i], run[i + 1]) && ThreadOk(run[i], t);
    if steps[i].Go? {
      GoFrame(run[i], steps[i].t);
    } else if Touches(run[i], steps[i], t) {
      Touched(run[i], steps[i], t);
      ActedKeeps(run[i].threads[t], steps[i]);
    } else {
      Untouched(run[i], steps[i], t);
    }
  }

  /** The assertions hold: entering a wait the thread is not interruptible, leaving one it was woken. */
  lemma {:induction false} AssertionsHold(run: seq<State>, steps: seq<Step>, i: nat, t: Tid)
    requires IsRun(run, steps) && i < |run| && t in run[i].threads && run[i].threads[t].run == Running
    ensures var th := run[i].threads[t];
      && (th.pc.Enter? ==> !th.intable)
      && (th.pc.Assert? ==> th.pc.w in run[i].waiters && run[i].waiters[th.pc.w].done)
  {
    RunInv(run, steps, i);
    assert ThreadOk(run[i], t);
  }

  /** A waker between its two halves holds a waiter whose thread is still in that wait. */
  lemma {:induction false} WakerSafe(run: seq<State>, steps: seq<Step>, i: nat, q: Qid)
    requires IsRun(run, steps) && i < |run| && q in run[i].flight
    ensures
      var w := run[i].flight[q];
      && w in run[i].waiters && run[i].waiters[w].owner in run[i].threads
      && var th := run[i].threads[run[i].waiters[w].owner];
         th.pc != Out && th.pc.w == w && !th.pc.Assert? && Enabled(run[i], Deliver(q))
  {
    RunInv(run, steps, i);
    assert FlightOk(run[i], q) && WaiterOk(run[i], run[i].flight[q]);
    assert ThreadOk(run[i], run[i].waiters[run[i].flight[q]].owner);
  }

  // ----- Calls -----

  /** A thread is in the wait it called, on that waiter and with what it asked for, until the wait returns. */
  lemma {:induction false} CallKept(run: seq<State>, steps: seq<Step>, i: nat, j: nat, t: Tid)
    requires IsRun(run, steps) && i < j < |run| && steps[i].Start? && steps[i].t == t
    requires forall k | i < k <= j :: t in run[k].threads && run[k].threads[t].pc != Out
    ensures
      var th := run[j].threads[t];
      th.pc.w == steps[i].w && (th.intr <==> steps[i].intr) && (th.timed <==> steps[i].timed)
  {
    var st, s := run[j - 1], steps[j - 1];
    assert Taken(st, s, run[j]);
    if j > i + 1 {
      CallKept(run, steps, i, j - 1, t);
      if s.Go? {
        GoFrame(st, s.t);
        SteppedKeeps(st.threads[s.t], st.waiters[st.threads[s.t].pc.w].done);
      } else if Touches(st, s, t) {
        Touched(st, s, t);
        ActedKeeps(st.threads[t], s);
      } else {
        Untouched(st, s, t);
      }
    }
  }

  /** The steps that take a waiter off its queue for good: giving it up, and the end of its wait. */
  ghost predicate Takes(st: State, s: Step, w: Wid) {
    (s.Drop? && s.w == w) || (s.Go? && s.t in st.threads && st.threads[s.t].pc != Out && st.threads[s.t].pc.w == w)
  }

  lemma {:induction false} WaiterStays(st: State, s: Step, w: Wid)
    requires Enabled(st, s) && w in st.waiters && !Takes(st, s, w)
    ensures
      var st' := Next(st, s);
      w in st'.waiters && st'.waiters[w].owner == st.waiters[w].owner && st'.waiters[w].q == st.waiters[w].q
  {
    if s.Go? { GoFrame(st, s.t); }
  }

  /** A waiter that was prepared is its thread's, on that queue, until the thread gives it up or waits on it. */
  lemma {:induction false} PreparedStays(run: seq<State>, steps: seq<Step>, i: nat, j: nat)
    requires IsRun(run, steps) && i < j < |run| && steps[i].Prep?
    requires forall k | i < k < j :: !Takes(run[k], steps[k], steps[i].w)
    ensures
      var w := steps[i].w;
      w in run[j].waiters && run[j].waiters[w].owner == steps[i].t && run[j].waiters[w].q == steps[i].q
  {
    assert Taken(run[j - 1], steps[j - 1], run[j]);
    if j > i + 1 {
      PreparedStays(run, steps, i, j - 1);
      WaiterStays(run[j - 1], steps[j - 1], steps[i].w);
    }
  }

  /** One that was given up is gone. */
  lemma {:induction false} DroppedGone(run: seq<State>, steps: seq<Step>, i: nat)
    requires IsRun(run, steps) && i < |steps| && steps[i].Drop?
    ensures steps[i].w !in run[i + 1].waiters
  {
    assert Taken(run[i], steps[i], run[i + 1]);
  }

  // ----- Being awake is enough -----

  /** Places from which an awake thread does not go to sleep again. */
  predicate Through(p: Pc) { Committed(p) || p.Leave? }

  function Away(p: Pc): nat {
    match p
    case Arm(_) => 6
    case Call(_) => 5
    case Back(_) => 4
    case Stop(_, _) => 3
    case Check2(_) => 2
    case Assert(_) => 1
    case Leave(_) => 1
    case _ => 0
  }

  /** How far the thread is from the end of its wait: its own steps, being scheduled, a waker in its way. */
  ghost function Measure(st: State, t: Tid): nat
    requires t in st.threads && st.threads[t].pc != Out && st.threads[t].pc.w in st.waiters
  {
    var th := st.threads[t];
    3 * Away(th.pc) + (if th.run == Running then 0 else 1)
      + if th.pc.Leave? && st.waiters[th.pc.w].q in st.flight then 1 else 0
  }

  ghost predicate Ending(st: State, t: Tid) {
    && Inv(st) && t in st.threads && Through(st.threads[t].pc) && !Sleepy(st.threads[t])
    && st.threads[t].pc.w in st.waiters
  }

  /** The step that brings an awake thread nearer to the end of its wait. */
  ghost function Onward(st: State, t: Tid): Step
    requires Ending(st, t)
  {
    var th := st.threads[t];
    if th.run == Ready then Dispatch(t)
    else if th.pc.Leave? && st.waiters[th.pc.w].q in st.flight then Deliver(st.waiters[th.pc.w].q)
    else Go(t)
  }

  /** The thread has come nearer to the end of its wait, and is not asleep. */
  ghost predicate Nearer(th: Thread, th': Thread)
    requires th.pc != Out
  {
    th'.pc == Out || (Through(th'.pc) && th'.pc.w == th.pc.w && Away(th'.pc) < Away(th.pc) && !Sleepy(th'))
  }

  lemma {:induction false} SteppedNearer(th: Thread, done: bool)
    requires Through(th.pc) && !th.doSleep && th.run == Running
    ensures Nearer(th, Stepped(th, done))
  {
    match th.pc
    case Arm(_) =>
    case Call(_) =>
    case Back(_) =>
    case Stop(_, _) =>
    case Check2(_) =>
    case Assert(_) =>
    case Leave(_) =>
  }

  lemma {:induction false} OnwardStep(st: State, t: Tid)
    requires Ending(st, t)
    ensures Enabled(st, Onward(st, t))
    ensures
      var st' := Next(st, Onward(st, t));
      && Inv(st') && t in st'.threads
      && (st'.threads[t].pc == Out || (Ending(st', t) && Measure(st', t) < Measure(st, t)))
  {
    var th, s := st.threads[t], Onward(st, t);
    assert ThreadOk(st, t);
    if s.Deliver? {
      assert FlightOk(st, s.q) && WaiterOk(st, st.flight[s.q]);
    }
    InvNext(st, s);
    if s.Go? { SteppedNearer(th, st.waiters[th.pc.w].done); }
  }

  ghost predicate Path(run: seq<State>, steps: seq<Step>) {
    |run| == |steps| + 1 && forall i | 0 <= i < |steps| :: Taken(run[i], steps[i], run[i + 1])
  }

  lemma {:induction false} Extend(run: seq<State>, steps: seq<Step>, s: Step)
    returns (run': seq<State>, steps': seq<Step>)
    requires Path(run, steps) && Enabled(run[|steps|], s)
    ensures Path(run', steps') && run'[0] == run[0] && steps' == steps + [s]
    ensures run'[|steps'|] == Next(run[|steps|], s)
  {
    run', steps' := run + [Next(run[|steps|], s)], steps + [s];
    forall i | 0 <= i < |steps'| ensures Taken(run'[i], steps'[i], run'[i + 1]) {
      if i < |steps| { assert Taken(run[i], steps[i], run[i + 1]); }
    }
  }

  /**
   Once awake, a thread comes to the end of its wait: its own steps, the scheduler's and those of the
   waker that holds the queue's lock are all it takes.
   */
  lemma {:induction false} AwakeReturns(st: State, t: Tid) returns (run: seq<State>, steps: seq<Step>)
    requires Ending(st, t)
    ensures Path(run, steps) && run[0] == st
    ensures forall s | s in steps :: s == Go(t) || s == Dispatch(t) || s.Deliver?
    ensures t in run[|steps|].threads && run[|steps|].threads[t].pc == Out
  {
    run, steps := [st], [];
    while run[|steps|].threads[t].pc != Out
      invariant Path(run, steps) && run[0] == st && t in run[|steps|].threads
      invariant forall s | s in steps :: s == Go(t) || s == Dispatch(t) || s.Deliver?
      invariant run[|steps|].threads[t].pc == Out || Ending(run[|steps|], t)
      decreases if run[|steps|].threads[t].pc == Out then 0 else 1 + Measure(run[|steps|], t)
    {
      OnwardStep(run[|steps|], t);
      run, steps := Extend(run, steps, Onward(run[|steps|], t));
    }
  }
}
