/** The sleeping mutex (kern/sync.c) over futex wait queues (kern/futex.c). */
module SyncMutex {
  // Any number of threads and mutexes; every atomic operation or locked block is one step, in any
  // order.

  import opened Lists

  type Tid = nat
  type Lock = nat

  /** Where a thread is in __sync_acquire, __kern_wait or sync_release. */
  datatype Pc =
    | Idle
    | Try(m: Lock, again: bool)   // about to compare-and-swap
    | Inc(m: Lock, seen: Tid)     // lost to seen, about to count itself as waiting
    | Prep(m: Lock, seen: Tid)    // about to join the wait queue
    | Load(m: Lock, seen: Tid)    // about to check that seen still holds the mutex
    | Sleep(m: Lock)              // committed to sleep until woken
    | Abort(m: Lock)              // about to leave the wait queue
    | Dec(m: Lock)                // about to stop counting as waiting
    | Peek(m: Lock)               // has released, about to look for waiting threads
    | Wake(m: Lock)               // has released, about to wake one

  /**
   `done` are the threads whose current waiter has been woken. `bucket` is the hash of a mutex's
   address, any function at all; mutexes of the same bucket share a queue.
   */
  datatype State = State(
    pc: map<Tid, Pc>, owner: map<Lock, Option<Tid>>, waiting: map<Lock, nat>, done: set<Tid>,
    bucket: map<Lock, nat>, queue: map<nat, seq<Tid>>)

  datatype Step = Acquire(t: Tid, m: Lock) | Release(t: Tid, m: Lock) | Run(t: Tid)

  ghost predicate Typed(st: State) {
    && st.owner.Keys == st.waiting.Keys
    && (forall m | m in st.owner :: m in st.bucket && st.bucket[m] in st.queue)
    && (forall t | t in st.pc && st.pc[t] != Idle :: st.pc[t].m in st.owner)
  }

  ghost predicate Enabled(st: State, s: Step) {
    match s
    case Acquire(t, m) => t in st.pc && st.pc[t] == Idle && m in st.owner && st.owner[m] != Some(t)
    case Release(t, m) => t in st.pc && st.pc[t] == Idle && m in st.owner && st.owner[m].Some?
    case Run(t) => t in st.pc && st.pc[t] != Idle && (st.pc[t].Sleep? ==> t in st.done)
  }

  predicate Waits(p: Pc, m: Lock) { (p.Load? || p.Sleep? || p.Abort?) && p.m == m }

  /** futex_addr_cmp in the scan of kern_wake: the first waiter of this mutex. */
  function FirstOf(q: seq<Tid>, pc: map<Tid, Pc>, m: Lock): (r: Option<Tid>)
    ensures r.Some? ==> r.value in q && r.value in pc && Waits(pc[r.value], m)
    ensures r.None? ==> forall t | t in q && t in pc :: !Waits(pc[t], m)
  {
    if q == [] then None
    else if q[0] in pc && Waits(pc[q[0]], m) then Some(q[0])
    else FirstOf(q[1..], pc, m)
  }

  function Go(st: State, t: Tid, p: Pc): State { st.(pc := st.pc[t := p]) }

  ghost function DoTry(st: State, t: Tid, m: Lock): State
    requires m in st.owner
  {
    if st.owner[m].None? then Go(st, t, Idle).(owner := st.owner[m := Some(t)])
    else Go(st, t, Inc(m, st.owner[m].value))
  }

  ghost function DoPrep(st: State, t: Tid, m: Lock, seen: Tid): State
    requires m in st.bucket && st.bucket[m] in st.queue
  {
    Go(st, t, Load(m, seen)).(queue := st.queue[st.bucket[m] := st.queue[st.bucket[m]] + [t]], done := st.done - {t})
  }

  ghost function DoAbort(st: State, t: Tid, m: Lock): State
    requires m in st.bucket && st.bucket[m] in st.queue
  {
    var q := if t in st.done then st.queue[st.bucket[m]] else Without(st.queue[st.bucket[m]], t);
    Go(st, t, Dec(m)).(queue := st.queue[st.bucket[m] := q])
  }

  ghost function DoWake(st: State, t: Tid, m: Lock): State
    requires m in st.bucket && st.bucket[m] in st.queue
  {
    var q := st.queue[st.bucket[m]];
    var r := FirstOf(q, st.pc, m);
    if r.None? then Go(st, t, Idle)
    else Go(st, t, Idle).(queue := st.queue[st.bucket[m] := Without(q, r.value)], done := st.done + {r.value})
  }

  ghost function DoRun(st: State, t: Tid): State
    requires Typed(st) && Enabled(st, Run(t)) && (st.pc[t].Dec? ==> st.waiting[st.pc[t].m] > 0)
  {
    match st.pc[t]
    case Try(m, _) => DoTry(st, t, m)
    case Inc(m, seen) => Go(st, t, Prep(m, seen)).(waiting := st.waiting[m := st.waiting[m] + 1])
    case Prep(m, seen) => DoPrep(st, t, m, seen)
    case Load(m, seen) => Go(st, t, if st.owner[m] == Some(seen) then Sleep(m) else Abort(m))
    case Sleep(m) => Go(st, t, Dec(m))
    case Abort(m) => DoAbort(st, t, m)
    case Dec(m) => Go(st, t, Try(m, true)).(waiting := st.waiting[m := st.waiting[m] - 1])
    case Peek(m) => Go(st, t, if st.waiting[m] > 0 then Wake(m) else Idle)
    case Wake(m) => DoWake(st, t, m)
  }

  ghost function Next(st: State, s: Step): State
    requires Typed(st) && Enabled(st, s) && Counted(st)
  {
    match s
    case Acquire(t, m) => Go(st, t, Try(m, false))
    case Release(t, m) => Go(st, t, Peek(m)).(owner := st.owner[m := None])
    case Run(t) => CountPositive(st, t); DoRun(st, t)
  }

  // ----- Invariant -----

  predicate Counts(p: Pc, m: Lock) { (p.Prep? || p.Load? || p.Sleep? || p.Abort? || p.Dec?) && p.m == m }

  ghost function Counting(pc: map<Tid, Pc>, m: Lock): set<Tid> { set t | t in pc && Counts(pc[t], m) }

  /** The waiting counter counts the threads between its increment and its decrement. */
  ghost predicate Counted(st: State) {
    st.owner.Keys == st.waiting.Keys && forall m {:trigger CountedAt(st, m)} | m in st.waiting :: CountedAt(st, m)
  }

  ghost predicate CountedAt(st: State, m: Lock)
    requires m in st.waiting
  {
    st.waiting[m] == |Counting(st.pc, m)|
  }

  lemma {:induction false} CountPositive(st: State, t: Tid)
    requires Typed(st) && Counted(st) && t in st.pc
    ensures st.pc[t].Dec? ==> st.waiting[st.pc[t].m] > 0
  {
    if st.pc[t].Dec? {
      assert CountedAt(st, st.pc[t].m);
      assert t in Counting(st.pc, st.pc[t].m);
    }
  }

  /** A queue holds exactly the waiters of its bucket that have not been woken. */
  ghost predicate Queued(st: State) {
    forall b {:trigger QueuedAt(st, b)} | b in st.queue :: QueuedAt(st, b)
  }

  ghost predicate QueuedAt(st: State, b: nat)
    requires b in st.queue
  {
    && NoDup(st.queue[b])
    && forall t: Tid :: t in st.queue[b] <==> Listed(st, t) && st.pc[t].m in st.bucket && st.bucket[st.pc[t].m] == b
  }

  predicate Listed(st: State, t: Tid) {
    t in st.pc && (st.pc[t].Load? || st.pc[t].Sleep? || st.pc[t].Abort?) && t !in st.done
  }

  /** A thread that will stay asleep until somebody wakes it. */
  predicate Committed(st: State, t: Tid, m: Lock) { t in st.pc && st.pc[t] == Sleep(m) && t !in st.done }

  /** A releaser between its exchange and its wake. */
  predicate Releasing(st: State, t: Tid, m: Lock) { t in st.pc && (st.pc[t] == Peek(m) || st.pc[t] == Wake(m)) }

  /** A thread that has waited and is on its way to try again. */
  predicate Retrying(st: State, t: Tid, m: Lock) {
    && t in st.pc
    && (st.pc[t] == Try(m, true) || st.pc[t] == Dec(m) || st.pc[t] == Abort(m) || (Waits(st.pc[t], m) && t in st.done))
  }

  /** The mutex is held, or somebody has yet to wake, or somebody woken has yet to try. */
  ghost predicate Watched(st: State, m: Lock)
    requires m in st.owner
  {
    st.owner[m].Some? || (exists t :: Releasing(st, t, m)) || (exists t :: Retrying(st, t, m))
  }

  ghost predicate NoLostWakeup(st: State) {
    forall t, m {:trigger Committed(st, t, m)} | m in st.owner && Committed(st, t, m) :: Watched(st, m)
  }

  ghost predicate Inv(st: State) { Typed(st) && Counted(st) && Queued(st) && NoLostWakeup(st) }

  // ----- Every step keeps it -----

  ghost predicate SafeRun(st: State, s: Step) {
    Typed(st) && Counted(st) && Enabled(st, s)
  }

  lemma {:induction false} PcNext(st: State, s: Step)
    requires SafeRun(st, s)
    ensures
      var st' := Next(st, s);
      st'.waiting.Keys == st.waiting.Keys && s.t in st'.pc && st'.pc == st.pc[s.t := st'.pc[s.t]]
  {}

  lemma {:induction false} WaitingNext(st: State, s: Step, m: Lock)
    requires SafeRun(st, s) && m in st.waiting
    ensures
      var st' := Next(st, s);
      && m in st'.waiting && s.t in st'.pc
      && st'.waiting[m] == st.waiting[m] - One(Counts(st.pc[s.t], m)) + One(Counts(st'.pc[s.t], m))
  {
    CountPositive(st, s.t);
  }

  lemma {:induction false} CountedNext(st: State, s: Step)
    requires SafeRun(st, s)
    ensures Counted(Next(st, s))
  {
    var st' := Next(st, s);
    forall m | m in st'.waiting ensures CountedAt(st', m) {
      assert CountedAt(st, m);
      WaitingNext(st, s, m);
      PcNext(st, s);
      Swap(Counting(st.pc, m), Counting(st'.pc, m), s.t);
    }
  }

  lemma {:induction false} TypedNext(st: State, s: Step)
    requires SafeRun(st, s)
    ensures Typed(Next(st, s))
  {}

  lemma {:induction false} QueuedAbort(st: State, t: Tid, b: nat)
    requires Typed(st) && Queued(st) && t in st.pc && st.pc[t].Abort? && b in st.queue
    ensures QueuedAt(DoAbort(st, t, st.pc[t].m), b)
  {
    assert QueuedAt(st, b);
    WithoutElems(st.queue[b], t);
  }

  lemma {:induction false} QueuedWake(st: State, t: Tid, b: nat)
    requires Typed(st) && Queued(st) && t in st.pc && st.pc[t].Wake? && b in st.queue
    ensures QueuedAt(DoWake(st, t, st.pc[t].m), b)
  {
    assert QueuedAt(st, b) && QueuedAt(st, st.bucket[st.pc[t].m]);
    var r := FirstOf(st.queue[st.bucket[st.pc[t].m]], st.pc, st.pc[t].m);
    if r.Some? { WithoutElems(st.queue[b], r.value); }
  }

  lemma {:induction false} QueuedNext(st: State, s: Step)
    requires SafeRun(st, s) && Queued(st)
    ensures Queued(Next(st, s))
  {
    var st' := Next(st, s);
    forall b | b in st'.queue ensures QueuedAt(st', b) {
      assert QueuedAt(st, b);
      if s.Run? && st.pc[s.t].Abort? {
        QueuedAbort(st, s.t, b);
      } else if s.Run? && st.pc[s.t].Wake? {
        QueuedWake(st, s.t, b);
      }
    }
  }

  /** Somebody else's step: what stood guard over m still does, or its own step passed the duty on. */
  lemma {:induction false} WatchedRun(st: State, t: Tid, m: Lock, x: Tid)
    requires Typed(st) && Counted(st) && Queued(st) && Enabled(st, Run(t)) && m in st.owner
    requires Committed(st, x, m) && x != t && Watched(st, m)
    ensures Watched(Next(st, Run(t)), m)
  {
    var st' := Next(st, Run(t));
    if st'.owner[m].None? {
      if exists r :: Releasing(st, r, m) {
        var r :| Releasing(st, r, m);
        if r != t { assert Releasing(st', r, m); } else { ReleaserPasses(st, t, m, x); }
      } else {
        var r :| Retrying(st, r, m);
        RetrierPasses(st, t, m, r);
      }
    }
  }

  /** A thread on its way to try again stays so until it finds the mutex held or takes it. */
  lemma {:induction false} RetrierPasses(st: State, t: Tid, m: Lock, r: Tid)
    requires Typed(st) && Counted(st) && Enabled(st, Run(t)) && m in st.owner && Retrying(st, r, m)
    ensures Next(st, Run(t)).owner[m].Some? || Retrying(Next(st, Run(t)), r, m)
  {}

  /** A releaser sees the sleeper in the counter and then wakes it or another one. */
  lemma {:induction false} ReleaserPasses(st: State, t: Tid, m: Lock, x: Tid)
    requires Typed(st) && Counted(st) && Queued(st) && Enabled(st, Run(t)) && m in st.owner
    requires Committed(st, x, m) && Releasing(st, t, m)
    ensures Watched(Next(st, Run(t)), m)
  {
    var st' := Next(st, Run(t));
    if st.pc[t].Peek? {
      assert CountedAt(st, m) && x in Counting(st.pc, m);
      assert Releasing(st', t, m);
    } else {
      assert QueuedAt(st, st.bucket[m]) && x in st.queue[st.bucket[m]];
      var r := FirstOf(st.queue[st.bucket[m]], st.pc, m);
      assert Retrying(st', r.value, m);
    }
  }

  lemma {:induction false} NoLostNext(st: State, s: Step)
    requires Inv(st) && Enabled(st, s)
    ensures NoLostWakeup(Next(st, s))
  {
    var st' := Next(st, s);
    forall x, m | m in st'.owner && Committed(st', x, m) ensures Watched(st', m) {
      if x != s.t {
        assert Committed(st, x, m);
        match s
        case Run(t) => WatchedRun(st, t, m, x);
        case Release(t, n) =>
          if m == n { assert Releasing(st', t, m); } else { WatchedOther(st, st', t, m); }
        case Acquire(t, _) => WatchedOther(st, st', t, m);
      }
    }
  }

  lemma {:induction false} WatchedOther(st: State, st': State, t: Tid, m: Lock)
    requires m in st.owner && m in st'.owner && Watched(st, m) && st'.owner[m] == st.owner[m] && st'.done == st.done
    requires t in st.pc && st.pc[t] == Idle && t in st'.pc && st'.pc == st.pc[t := st'.pc[t]]
    ensures Watched(st', m)
  {
    if st.owner[m].None? {
      if exists r :: Releasing(st, r, m) {
        var r :| Releasing(st, r, m);
        assert Releasing(st', r, m);
      } else {
        var r :| Retrying(st, r, m);
        assert Retrying(st', r, m);
      }
    }
  }

  /** The invariant holds at the start and is kept by every step of every thread. */
  lemma {:induction false} InvNext(st: State, s: Step)
    requires Inv(st) && Enabled(st, s)
    ensures Inv(Next(st, s))
  {
    TypedNext(st, s);
    CountedNext(st, s);
    QueuedNext(st, s);
    NoLostNext(st, s);
  }

  ghost predicate Init(st: State) {
    && Typed(st) && st.done == {}
    && (forall t | t in st.pc :: st.pc[t] == Idle)
    && (forall m | m in st.waiting :: st.waiting[m] == 0)
    && (forall b | b in st.queue :: st.queue[b] == [])
  }

  lemma {:induction false} InitInv(st: State)
    requires Init(st)
    ensures Inv(st)
  {
    forall m | m in st.waiting ensures CountedAt(st, m) { assert Counting(st.pc, m) == {}; }
  }

  // ----- Whole runs -----

  ghost predicate IsRun(run: seq<State>, steps: seq<Step>) {
    && |run| == |steps| + 1 && Init(run[0])
    && forall i | 0 <= i < |steps| :: Taken(run[i], steps[i], run[i + 1])
  }

  ghost predicate Taken(st: State, s: Step, st': State) {
    Typed(st) && Counted(st) && Enabled(st, s) && st' == Next(st, s)
  }

  lemma {:induction false} RunInv(run: seq<State>, steps: seq<Step>, i: nat)
    requires IsRun(run, steps) && i < |run|
    ensures Inv(run[i])
  {
    if i == 0 {
      InitInv(run[0]);
    } else {
      RunInv(run, steps, i - 1);
      assert Taken(run[i - 1], steps[i - 1], run[i]);
      InvNext(run[i - 1], steps[i - 1]);
    }
  }

  /**
   No lost wakeup, in every interleaving: while a thread is committed to sleep on a mutex, the
   mutex is held, or a releaser has yet to wake, or a woken thread has yet to try again. So once
   every other thread has come to rest, the mutex is held.
   */
  lemma {:induction false} NobodySleepsForever(run: seq<State>, steps: seq<Step>, i: nat, t: Tid, m: Lock)
    requires IsRun(run, steps) && i < |run| && m in run[i].owner && Committed(run[i], t, m)
    ensures Watched(run[i], m)
    ensures (forall x | x in run[i].pc :: run[i].pc[x] == Idle || Committed(run[i], x, run[i].pc[x].m)) ==>
      run[i].owner[m].Some?
  {
    RunInv(run, steps, i);
  }

  // ----- Mutual exclusion -----

  /** Only a release takes a mutex from its holder. */
  lemma {:induction false} OnlyReleaseFrees(run: seq<State>, steps: seq<Step>, i: nat, m: Lock)
    requires IsRun(run, steps) && i < |steps| && m in run[i].owner
    ensures m in run[i + 1].owner
    ensures run[i].owner[m].Some? && run[i + 1].owner[m] != run[i].owner[m] ==> steps[i].Release? && steps[i].m == m
    ensures steps[i].Release? && steps[i].m == m ==> run[i + 1].owner[m] == None
  {
    assert Taken(run[i], steps[i], run[i + 1]);
  }

  /** In a call of __sync_acquire for m. */
  predicate Acquiring(p: Pc, m: Lock) {
    && (p.Try? || p.Inc? || p.Prep? || p.Load? || p.Sleep? || p.Abort? || p.Dec?)
    && p.m == m
  }

  /** With step i the thread calls acquire for m, and with step j it is out of it again. */
  ghost predicate Call(run: seq<State>, steps: seq<Step>, t: Tid, m: Lock, i: nat, j: nat)
    requires IsRun(run, steps)
  {
    && i <= j < |steps| && steps[i] == Acquire(t, m)
    && (forall k | i < k <= j :: t in run[k].pc && run[k].pc[t] != Idle)
    && t in run[j + 1].pc && run[j + 1].pc[t] == Idle
  }

  lemma {:induction false} AcquiringRun(st: State, t: Tid, m: Lock)
    requires SafeRun(st, Run(t)) && Acquiring(st.pc[t], m) && (st.pc[t].Dec? ==> st.waiting[m] > 0)
    ensures
      var st' := DoRun(st, t);
      && t in st'.pc && m in st.owner && m in st'.owner
      && (st'.pc[t] != Idle ==> Acquiring(st'.pc[t], m))
      && (st'.pc[t] == Idle ==> st.owner[m] == None && st'.owner[m] == Some(t))
      && (st.pc[t].Try? && st.owner[m] == None ==> st'.pc[t] == Idle)
  {}

  lemma {:induction false} AcquiringNext(st: State, s: Step, t: Tid, m: Lock)
    requires SafeRun(st, s) && t in st.pc && Acquiring(st.pc[t], m)
    ensures
      var st' := Next(st, s);
      && t in st'.pc && m in st.owner && m in st'.owner
      && (st'.pc[t] != Idle ==> Acquiring(st'.pc[t], m))
      && (st'.pc[t] == Idle ==> s == Run(t) && st.owner[m] == None && st'.owner[m] == Some(t))
      && (s == Run(t) && st.pc[t].Try? && st.owner[m] == None ==> st'.pc[t] == Idle)
  {
    TypedNext(st, s);
    PcNext(st, s);
    if s == Run(t) {
      CountPositive(st, t);
      AcquiringRun(st, t, m);
    }
  }

  lemma {:induction false} InCall(run: seq<State>, steps: seq<Step>, t: Tid, m: Lock, i: nat, k: nat)
    requires IsRun(run, steps) && i < k <= |steps| && steps[i] == Acquire(t, m)
    requires forall l | i < l <= k :: t in run[l].pc && run[l].pc[t] != Idle
    ensures Acquiring(run[k].pc[t], m)
  {
    assert Taken(run[k - 1], steps[k - 1], run[k]);
    if k > i + 1 {
      InCall(run, steps, t, m, i, k - 1);
      AcquiringNext(run[k - 1], steps[k - 1], t, m);
    }
  }

  /** A call returns in the very step that takes the free mutex for its thread. */
  lemma {:induction false} ReturnTakes(run: seq<State>, steps: seq<Step>, t: Tid, m: Lock, i: nat, j: nat)
    requires IsRun(run, steps) && Call(run, steps, t, m, i, j)
    ensures m in run[j].owner && m in run[j + 1].owner
    ensures run[j].owner[m] == None && run[j + 1].owner[m] == Some(t)
  {
    assert Taken(run[j], steps[j], run[j + 1]);
    if i < j {
      InCall(run, steps, t, m, i, j);
      AcquiringNext(run[j], steps[j], t, m);
    }
  }

  /** A call that tries while the mutex is free returns. */
  lemma {:induction false} FreeIsTaken(run: seq<State>, steps: seq<Step>, t: Tid, i: nat)
    requires IsRun(run, steps) && i < |steps| && steps[i] == Run(t) && t in run[i].pc && run[i].pc[t].Try?
    requires run[i].pc[t].m in run[i].owner && run[i].owner[run[i].pc[t].m] == None
    ensures t in run[i + 1].pc && run[i + 1].pc[t] == Idle
  {
    assert Taken(run[i], steps[i], run[i + 1]);
    AcquiringNext(run[i], steps[i], t, run[i].pc[t].m);
  }

  /** A thread that finds the mutex still held when it has joined the queue sleeps until it is woken. */
  lemma {:induction false} SleepsUntilWoken(run: seq<State>, steps: seq<Step>, t: Tid, i: nat, j: nat)
    requires IsRun(run, steps) && i < j < |run| && steps[i] == Run(t) && t in run[i].pc && run[i].pc[t].Load?
    requires run[i].pc[t].m in run[i].owner && run[i].owner[run[i].pc[t].m] == Some(run[i].pc[t].seen)
    requires forall k | i < k < j :: t !in run[k].done
    ensures t in run[j].pc && run[j].pc[t] == Sleep(run[i].pc[t].m)
  {
    assert Taken(run[j - 1], steps[j - 1], run[j]);
    PcNext(run[j - 1], steps[j - 1]);
    if j > i + 1 { SleepsUntilWoken(run, steps, t, i, j - 1); }
  }

  /** Without a release the holder stays. */
  lemma {:induction false} HeldUntilRelease(run: seq<State>, steps: seq<Step>, m: Lock, i: nat, j: nat)
    requires IsRun(run, steps) && i <= j < |run| && m in run[i].owner && run[i].owner[m].Some?
    requires forall k | i <= k < j :: !(steps[k].Release? && steps[k].m == m)
    ensures m in run[j].owner && run[j].owner[m] == run[i].owner[m]
  {
    if i < j {
      HeldUntilRelease(run, steps, m, i, j - 1);
      OnlyReleaseFrees(run, steps, j - 1, m);
    }
  }

  /**
   Mutual exclusion, in every interleaving: between the returns of two acquires of the same mutex,
   by whomever, there is a release of it.
   */
  lemma {:induction false} Exclusion(run: seq<State>, steps: seq<Step>, m: Lock, t: Tid, i: nat, j: nat,
    u: Tid, k: nat, l: nat)
    requires IsRun(run, steps) && Call(run, steps, t, m, i, j) && Call(run, steps, u, m, k, l) && j < l
    ensures exists r | j < r < l :: steps[r].Release? && steps[r].m == m
  {
    ReturnTakes(run, steps, t, m, i, j);
    ReturnTakes(run, steps, u, m, k, l);
    if forall r | j < r < l :: !(steps[r].Release? && steps[r].m == m) {
      HeldUntilRelease(run, steps, m, j + 1, l);
    }
  }

  // ----- Waking up is enough -----

  ghost predicate Path(run: seq<State>, steps: seq<Step>) {
    |run| == |steps| + 1 && forall i | 0 <= i < |steps| :: Taken(run[i], steps[i], run[i + 1])
  }

  lemma {:induction false} Extend(run: seq<State>, steps: seq<Step>, s: Step)
    returns (run': seq<State>, steps': seq<Step>)
    requires Path(run, steps) && Typed(run[|steps|]) && Counted(run[|steps|]) && Enabled(run[|steps|], s)
    ensures Path(run', steps') && run'[0] == run[0] && steps' == steps + [s]
    ensures run'[|steps'|] == Next(run[|steps|], s) && Typed(run'[|steps'|]) && Counted(run'[|steps'|])
  {
    run', steps' := run + [Next(run[|steps|], s)], steps + [s];
    TypedNext(run[|steps|], s);
    CountedNext(run[|steps|], s);
    forall i | 0 <= i < |steps'| ensures Taken(run'[i], steps'[i], run'[i + 1]) {
      if i < |steps| { assert Taken(run[i], steps[i], run[i + 1]); }
    }
  }

  /** How many steps a thread that has been woken is from trying again. */
  function Away(p: Pc): nat { if p.Try? then 0 else if p.Dec? then 1 else if p.Load? then 3 else 2 }

  /** One step towards trying again. */
  lemma {:induction false} RetryStep(st: State, t: Tid, m: Lock)
    requires Typed(st) && Counted(st) && m in st.owner && st.owner[m] == None && Retrying(st, t, m) && !st.pc[t].Try?
    ensures Enabled(st, Run(t))
    ensures
      var st' := Next(st, Run(t));
      m in st'.owner && st'.owner[m] == None && Retrying(st', t, m) && Away(st'.pc[t]) < Away(st.pc[t])
  {}

  /** A woken thread that finds the mutex free takes it by its own steps, four at most. */
  lemma {:induction false} WokenTakes(st: State, t: Tid, m: Lock) returns (run: seq<State>, steps: seq<Step>)
    requires Inv(st) && m in st.owner && st.owner[m] == None && Retrying(st, t, m)
    ensures Path(run, steps) && run[0] == st && |steps| <= 4 && (forall s | s in steps :: s == Run(t))
    ensures var end := run[|steps|]; m in end.owner && end.owner[m] == Some(t) && t in end.pc && end.pc[t] == Idle
  {
    run, steps := [st], [];
    while !run[|steps|].pc[t].Try?
      invariant Path(run, steps) && run[0] == st && (forall s | s in steps :: s == Run(t))
      invariant Typed(run[|steps|]) && Counted(run[|steps|]) && m in run[|steps|].owner
      invariant run[|steps|].owner[m] == None && Retrying(run[|steps|], t, m)
      invariant |steps| + Away(run[|steps|].pc[t]) <= 3
      decreases Away(run[|steps|].pc[t])
    {
      RetryStep(run[|steps|], t, m);
      run, steps := Extend(run, steps, Run(t));
    }
    run, steps := Extend(run, steps, Run(t));
  }

  // ----- First come, first woken -----

  lemma {:induction false} FirstOfFirst(q: seq<Tid>, pc: map<Tid, Pc>, m: Lock, x: Tid, y: Tid)
    requires NoDup(q) && Ahead(q, x, y) && x in pc && Waits(pc[x], m)
    ensures FirstOf(q, pc, m) != Some(y)
  {
    var i, j :| 0 <= i < j < |q| && q[i] == x && q[j] == y;
    if i > 0 {
      assert q[1..][i - 1] == x && q[1..][j - 1] == y;
      FirstOfFirst(q[1..], pc, m, x, y);
    }
  }

  /** The order of two threads in a queue does not change while both are in it. */
  lemma {:induction false} OrderNext(st: State, s: Step, b: nat, x: Tid, y: Tid)
    requires SafeRun(st, s) && Queued(st) && b in st.queue && Ahead(st.queue[b], x, y)
    requires b in Next(st, s).queue && x in Next(st, s).queue[b] && y in Next(st, s).queue[b]
    ensures Ahead(Next(st, s).queue[b], x, y)
  {
    assert QueuedAt(st, b);
    if s.Run? {
      var t, c := s.t, st.pc[s.t];
      if c.Prep? { AheadAppend(st.queue[b], x, y, t); }
      if c.Abort? {
        WithoutElems(st.queue[b], t);
        if t != x && t != y { AheadWithout(st.queue[b], x, y, t); }
      }
      if c.Wake? {
        var r := FirstOf(st.queue[st.bucket[c.m]], st.pc, c.m);
        if r.Some? {
          WithoutElems(st.queue[b], r.value);
          if r.value != x && r.value != y { AheadWithout(st.queue[b], x, y, r.value); }
        }
      }
    }
  }

  lemma {:induction false} OrderKept(run: seq<State>, steps: seq<Step>, b: nat, i: nat, j: nat, x: Tid, y: Tid)
    requires IsRun(run, steps) && i <= j < |run| && b in run[i].queue && Ahead(run[i].queue[b], x, y)
    requires forall k | i <= k <= j :: b in run[k].queue && x in run[k].queue[b] && y in run[k].queue[b]
    ensures Ahead(run[j].queue[b], x, y)
  {
    if i < j {
      OrderKept(run, steps, b, i, j - 1, x, y);
      RunInv(run, steps, j - 1);
      assert Taken(run[j - 1], steps[j - 1], run[j]);
      OrderNext(run[j - 1], steps[j - 1], b, x, y);
    }
  }

  /**
   Of two threads that wait for the same mutex, y is not woken while x, which joined the queue before
   y did at step i, is still in it.
   */
  lemma {:induction false} FirstWoken(run: seq<State>, steps: seq<Step>, b: nat, i: nat, j: nat, x: Tid, y: Tid,
    m: Lock)
    requires IsRun(run, steps) && i < j < |steps| && b in run[i].queue && x in run[i].queue[b]
    requires steps[i] == Run(y) && y in run[i].pc && run[i].pc[y].Prep? && y !in run[i].queue[b]
    requires forall k | i < k <= j :: b in run[k].queue && x in run[k].queue[b] && y in run[k].queue[b]
    requires x in run[j].pc && Waits(run[j].pc[x], m) && y in run[j].pc && Waits(run[j].pc[y], m)
    ensures y !in run[j + 1].done
  {
    assert Taken(run[i], steps[i], run[i + 1]);
    AheadAppend(run[i].queue[b], x, y, y);
    assert Ahead(run[i + 1].queue[b], x, y);
    OrderKept(run, steps, b, i + 1, j, x, y);
    RunInv(run, steps, j);
    assert Taken(run[j], steps[j], run[j + 1]) && QueuedAt(run[j], b);
    FirstOfFirst(run[j].queue[b], run[j].pc, m, x, y);
    if y in run[j + 1].done { WokenIsFirst(run[j], steps[j], y); }
  }

  lemma {:induction false} WokenIsFirst(st: State, s: Step, y: Tid)
    requires SafeRun(st, s) && y !in st.done && y in Next(st, s).done
    ensures s.Run? && st.pc[s.t].Wake?
    ensures FirstOf(st.queue[st.bucket[st.pc[s.t].m]], st.pc, st.pc[s.t].m) == Some(y)
  {}
}
