/** The ticket reader/writer spinlock (kern/rwlock.c): any number of threads, one atomic access per step. */
module RwSpin {
  import opened Lists

  type Tid = nat

  /** The counters are 16 bits wide. */
  const WIDTH: nat := 0x1_0000

  /** Where a thread is; n is the ticket it drew, as the counter stood. */
  datatype Phase =
    | Idle
    | ReadWait(n: nat)                 // spinning in rdlock_spin
    | ReadEnter(n: nat)                // has seen its ticket, about to let the next reader in
    | Reading(n: nat)
    | WriteWait(n: nat)                // spinning in wrlock_spin
    | Writing(n: nat)
    | Copying(n: nat, w: nat)          // wrunlock_spin has read the write counter
    | Storing(n: nat, w: nat, r: nat)  // and the read counter, about to store both

  /**
   ticket, read and write are the lock's fields. The rest is history: how often each was
   incremented in all, and the number of every ticket drawn.
   */
  datatype State = State(
    ticket: nat, read: nat, write: nat, at: map<Tid, Phase>,
    drawn: nat, passed: nat, returned: nat, number: map<Tid, nat>)

  datatype Step = DrawRead(t: Tid) | DrawWrite(t: Tid) | Go(t: Tid) | Unlock(t: Tid)

  function Inc(x: nat): nat { (x + 1) % WIDTH }

  ghost function Active(at: map<Tid, Phase>): set<Tid> { set t | t in at && at[t] != Idle }

  ghost function Readers(at: map<Tid, Phase>): set<Tid> { set t | t in at && at[t].Reading? }

  predicate Enabled(st: State, s: Step) {
    && s.t in st.at
    && match s
       case DrawRead(t) => st.at[t] == Idle
       case DrawWrite(t) => st.at[t] == Idle
       case Go(t) => st.at[t].ReadWait? || st.at[t].ReadEnter? || st.at[t].WriteWait? || st.at[t].Copying?
         || st.at[t].Storing?
       case Unlock(t) => st.at[t].Reading? || st.at[t].Writing?
  }

  /** A ticket is drawn only while fewer than bound are outstanding. */
  ghost predicate Within(st: State, s: Step, bound: nat) {
    Enabled(st, s) && (s.DrawRead? || s.DrawWrite? ==> |Active(st.at)| < bound)
  }

  function Put(st: State, t: Tid, p: Phase): State { st.(at := st.at[t := p]) }

  function Draw(st: State, t: Tid, p: Phase): State {
    Put(st, t, p).(ticket := Inc(st.ticket), drawn := st.drawn + 1, number := st.number[t := st.drawn])
  }

  ghost function DoGo(st: State, t: Tid): State
    requires Enabled(st, Go(t))
  {
    match st.at[t]
    case ReadWait(n) => if st.read == n then Put(st, t, ReadEnter(n)) else st
    case ReadEnter(n) => Put(st, t, Reading(n)).(read := Inc(st.read), passed := st.passed + 1)
    case WriteWait(n) => if st.write == n then Put(st, t, Writing(n)) else st
    case Copying(n, w) => Put(st, t, Storing(n, w, st.read))
    case Storing(n, w, r) =>
      Put(st, t, Idle).(write := Inc(w), read := Inc(r), returned := st.returned + 1, passed := st.passed + 1)
  }

  ghost function Next(st: State, s: Step): State
    requires Enabled(st, s)
  {
    match s
    case DrawRead(t) => Draw(st, t, ReadWait(st.ticket))
    case DrawWrite(t) => Draw(st, t, WriteWait(st.ticket))
    case Go(t) => DoGo(st, t)
    case Unlock(t) =>
      if st.at[t].Reading? then Put(st, t, Idle).(write := Inc(st.write), returned := st.returned + 1)
      else Put(st, t, Copying(st.at[t].n, st.write))
  }

  // ----- Invariant -----

  /** The fields are the history's counters cut to 16 bits; every ticket not yet returned is accounted for. */
  ghost predicate Counters(st: State) {
    && st.ticket == st.drawn % WIDTH && st.read == st.passed % WIDTH && st.write == st.returned % WIDTH
    && st.returned + |Readers(st.at)| == st.passed
    && st.returned + |Active(st.at)| == st.drawn
    && |Active(st.at)| <= WIDTH
  }

  predicate InWrite(p: Phase) { p.Writing? || p.Copying? || p.Storing? }

  /** Readers in their section have been passed by the read counter; a writer stands at both counters. */
  ghost predicate ThreadOk(st: State, t: Tid)
    requires t in st.at
  {
    var p := st.at[t];
    p == Idle ||
    (&& t in st.number && st.number[t] < st.drawn && p.n == st.number[t] % WIDTH
     && (p.ReadWait? || p.WriteWait? ==> st.number[t] >= st.passed)
     && (p.ReadEnter? ==> st.number[t] == st.passed)
     && (p.Reading? ==> st.number[t] < st.passed)
     && (InWrite(p) ==> st.number[t] == st.passed == st.returned)
     && (p.Copying? ==> p.w == st.write) && (p.Storing? ==> p.w == st.write && p.r == st.read))
  }

  ghost predicate Distinct(st: State) {
    forall t, u | t in Active(st.at) && u in Active(st.at) && t != u ::
      t in st.number && u in st.number ==> st.number[t] != st.number[u]
  }

  ghost predicate Inv(st: State) {
    && Counters(st) && Distinct(st)
    && forall t {:trigger ThreadOk(st, t)} | t in st.at :: ThreadOk(st, t)
  }

  // ----- Arithmetic of the counters -----

  lemma {:induction false} SameTicket(a: nat, b: nat)
    requires a <= b < a + WIDTH && a % WIDTH == b % WIDTH
    ensures a == b
  {}

  lemma {:induction false} IncMod(x: nat)
    ensures Inc(x % WIDTH) == (x + 1) % WIDTH
  {}

  lemma {:induction false} Moved(at: map<Tid, Phase>, t: Tid, p: Phase)
    requires t in at
    ensures |Active(at[t := p])| == |Active(at)| - One(at[t] != Idle) + One(p != Idle)
    ensures |Readers(at[t := p])| == |Readers(at)| - One(at[t].Reading?) + One(p.Reading?)
  {
    Swap(Active(at), Active(at[t := p]), t);
    Swap(Readers(at), Readers(at[t := p]), t);
  }

  // ----- Every step keeps it -----

  /** Mutual exclusion: with a writer in its section nobody else is in one. */
  lemma {:induction false} WriterAlone(st: State, t: Tid, u: Tid)
    requires Inv(st) && t in st.at && u in st.at && t != u && InWrite(st.at[t])
    ensures !st.at[u].Reading? && !st.at[u].ReadEnter? && !InWrite(st.at[u])
  {
    assert ThreadOk(st, t) && ThreadOk(st, u);
    assert Readers(st.at) == {};
    assert u !in Readers(st.at);
    if st.at[u] != Idle { assert t in Active(st.at) && u in Active(st.at); }
  }

  lemma {:induction false} CountersNext(st: State, s: Step)
    requires Inv(st) && Within(st, s, WIDTH)
    ensures Counters(Next(st, s))
  {
    var st', t := Next(st, s), s.t;
    assert ThreadOk(st, t);
    Moved(st.at, t, st'.at[t]);
    IncMod(st.drawn);
    IncMod(st.passed);
    IncMod(st.returned);
    if st'.at == st.at { assert st'.at[t := st'.at[t]] == st.at; }
  }

  lemma {:induction false} OwnNext(st: State, s: Step)
    requires Inv(st) && Within(st, s, WIDTH)
    ensures ThreadOk(Next(st, s), s.t)
  {
    var t := s.t;
    assert ThreadOk(st, t);
    assert Active(st.at) == Readers(st.at) + (Active(st.at) - Readers(st.at));
    if s.Go? && st.at[t].ReadWait? && st.read == st.at[t].n { SameTicket(st.passed, st.number[t]); }
    if s.Go? && st.at[t].WriteWait? && st.write == st.at[t].n { SameTicket(st.returned, st.number[t]); }
  }

  lemma {:induction false} OtherNext(st: State, s: Step, u: Tid)
    requires Inv(st) && Within(st, s, WIDTH) && u in st.at && u != s.t
    ensures ThreadOk(Next(st, s), u)
  {
    var t := s.t;
    assert ThreadOk(st, t) && ThreadOk(st, u);
    if st.at[u] != Idle && st.at[t] != Idle { assert t in Active(st.at) && u in Active(st.at); }
    if InWrite(st.at[u]) { WriterAlone(st, u, t); }
  }

  lemma {:induction false} DistinctNext(st: State, s: Step)
    requires Inv(st) && Within(st, s, WIDTH)
    ensures Distinct(Next(st, s))
  {
    var st' := Next(st, s);
    forall t, u | t in Active(st'.at) && u in Active(st'.at) && t != u && t in st'.number && u in st'.number
      ensures st'.number[t] != st'.number[u]
    {
      assert ThreadOk(st, t) && ThreadOk(st, u);
      assert t != s.t ==> t in Active(st.at);
      assert u != s.t ==> u in Active(st.at);
    }
  }

  lemma {:induction false} InvNext(st: State, s: Step)
    requires Inv(st) && Within(st, s, WIDTH)
    ensures Inv(Next(st, s))
  {
    CountersNext(st, s);
    DistinctNext(st, s);
    forall u | u in Next(st, s).at ensures ThreadOk(Next(st, s), u) {
      if u == s.t { OwnNext(st, s); } else { OtherNext(st, s, u); }
    }
  }

  // ----- Whole runs -----

  ghost predicate Init(st: State) {
    && st.ticket == st.read == st.write == st.drawn == st.passed == st.returned == 0
    && forall t | t in st.at :: st.at[t] == Idle
  }

  /** A run with at most bound tickets outstanding at any time. */
  ghost predicate IsRun(run: seq<State>, steps: seq<Step>, bound: nat) {
    && |run| == |steps| + 1 && Init(run[0])
    && forall i | 0 <= i < |steps| :: Taken(run[i], steps[i], run[i + 1], bound)
  }

  ghost predicate Taken(st: State, s: Step, st': State, bound: nat) { Within(st, s, bound) && st' == Next(st, s) }

  lemma {:induction false} RunInv(run: seq<State>, steps: seq<Step>, bound: nat, i: nat)
    requires IsRun(run, steps, bound) && bound <= WIDTH && i < |run|
    ensures Inv(run[i])
  {
    if i == 0 {
      assert Active(run[0].at) == {} && Readers(run[0].at) == {};
    } else {
      RunInv(run, steps, bound, i - 1);
      assert Taken(run[i - 1], steps[i - 1], run[i], bound);
      InvNext(run[i - 1], steps[i - 1]);
    }
  }

  /** In every interleaving, a writer in its section excludes all readers and writers. */
  lemma {:induction false} Exclusion(run: seq<State>, steps: seq<Step>, bound: nat, i: nat, t: Tid, u: Tid)
    requires IsRun(run, steps, bound) && bound <= WIDTH && i < |run|
    requires t in run[i].at && u in run[i].at && t != u && InWrite(run[i].at[t])
    ensures !run[i].at[u].Reading? && !run[i].at[u].ReadEnter? && !InWrite(run[i].at[u])
  {
    RunInv(run, steps, bound, i);
    WriterAlone(run[i], t, u);
  }

  /** The copy that wrunlock_spin stores is still up to date: it moves each counter on by one. */
  lemma {:induction false} StoreIsIncrement(run: seq<State>, steps: seq<Step>, bound: nat, i: nat, t: Tid)
    requires IsRun(run, steps, bound) && bound <= WIDTH && i < |run| && t in run[i].at && run[i].at[t].Storing?
    ensures
      var st' := Next(run[i], Go(t));
      st'.write == Inc(run[i].write) && st'.read == Inc(run[i].read)
  {
    RunInv(run, steps, bound, i);
    assert ThreadOk(run[i], t);
  }

  // ----- Nobody is passed over -----

  predicate Waiting(p: Phase) { p.ReadWait? || p.WriteWait? }

  ghost function Waiters(at: map<Tid, Phase>): set<Tid> { set t | t in at && Waiting(at[t]) }

  /** Threads with distinct numbers from lo up to hi are no more than those. */
  lemma {:induction false} PigeonsAbove(ts: set<Tid>, number: map<Tid, nat>, lo: nat, hi: nat)
    requires lo <= hi && forall t | t in ts :: t in number && lo <= number[t] < hi
    requires forall t, u | t in ts && u in ts && t != u :: number[t] != number[u]
    ensures |ts| <= hi - lo
    decreases hi - lo
  {
    if lo < hi {
      var low := set t | t in ts && number[t] == lo;
      PigeonsAbove(ts - low, number, lo + 1, hi);
      if t :| t in low { assert low == {t}; }
      assert |ts| <= |ts - low| + |low| by { assert ts == (ts - low) + low; }
    } else {
      assert ts == {};
    }
  }

  lemma {:induction false} WaiterCount(at: map<Tid, Phase>)
    requires forall u | u in at :: !at[u].ReadEnter? && !InWrite(at[u])
    ensures |Active(at)| == |Waiters(at)| + |Readers(at)|
  {
    assert Active(at) == Waiters(at) + Readers(at) && Waiters(at) !! Readers(at);
  }

  lemma {:induction false} WaiterNumbers(st: State)
    requires Inv(st)
    ensures forall u | u in Waiters(st.at) :: u in st.number && st.passed <= st.number[u] < st.drawn
    ensures forall u, v | u in Waiters(st.at) && v in Waiters(st.at) && u != v :: st.number[u] != st.number[v]
  {
    forall u | u in Waiters(st.at) ensures u in st.number && st.passed <= st.number[u] < st.drawn {
      assert ThreadOk(st, u);
    }
    assert Waiters(st.at) <= Active(st.at);
  }

  /** The numbers of the waiting threads are those from the read counter on. */
  lemma {:induction false} InLine(st: State)
    requires Inv(st) && Waiters(st.at) != {}
    requires forall u | u in st.at :: !st.at[u].ReadEnter? && !InWrite(st.at[u])
    ensures forall u | u in Waiters(st.at) :: u in st.number && st.passed <= st.number[u]
    ensures exists t :: t in Waiters(st.at) && st.number[t] == st.passed
  {
    WaiterCount(st.at);
    WaiterNumbers(st);
    Lowest(Waiters(st.at), st.number, st.passed, st.drawn);
  }

  lemma {:induction false} Lowest(ts: set<Tid>, number: map<Tid, nat>, lo: nat, hi: nat)
    requires ts != {} && |ts| == hi - lo && forall t | t in ts :: t in number && lo <= number[t] < hi
    requires forall t, u | t in ts && u in ts && t != u :: number[t] != number[u]
    ensures exists t :: t in ts && number[t] == lo
  {
    if forall t | t in ts :: number[t] != lo { PigeonsAbove(ts, number, lo + 1, hi); }
  }

  /**
   In every reachable state in which somebody waits and nobody is entering or writing, there is a
   thread whose ticket is next. A reader enters with its next look, beside other readers; a writer
   does so once no reader is left.
   */
  lemma {:induction false} NextCanEnter(run: seq<State>, steps: seq<Step>, bound: nat, i: nat) returns (t: Tid)
    requires IsRun(run, steps, bound) && bound <= WIDTH && i < |run| && Waiters(run[i].at) != {}
    requires forall u | u in run[i].at :: !run[i].at[u].ReadEnter? && !InWrite(run[i].at[u])
    ensures t in Waiters(run[i].at) && t in run[i].number
    ensures forall u | u in Waiters(run[i].at) :: u in run[i].number && run[i].number[t] <= run[i].number[u]
    ensures run[i].at[t].ReadWait? ==> Next(run[i], Go(t)).at[t].ReadEnter?
    ensures run[i].at[t].WriteWait? && Readers(run[i].at) == {} ==> Next(run[i], Go(t)).at[t].Writing?
  {
    RunInv(run, steps, bound, i);
    InLine(run[i]);
    t :| t in Waiters(run[i].at) && run[i].number[t] == run[i].passed;
    assert ThreadOk(run[i], t);
  }

  // ----- The bound is exact -----

  /** No state of the run has a writer in its section together with anybody else. */
  ghost predicate Excludes(run: seq<State>) {
    forall i, t, u | 0 <= i < |run| && t in run[i].at && u in run[i].at && t != u && InWrite(run[i].at[t]) ::
      !run[i].at[u].Reading? && !run[i].at[u].ReadEnter? && !InWrite(run[i].at[u])
  }

  function UpTo(k: nat): (ts: set<Tid>)
    ensures forall t: Tid :: t in ts <==> t <= k
  {
    set t: Tid {:trigger Inc(t)} | t <= k
  }

  /** Thread 0 writes and the threads from 1 to k wait to. */
  function Waits(k: nat): map<Tid, Phase> {
    map t | t in UpTo(WIDTH) :: if t == 0 then Writing(0) else if t <= k then WriteWait(t % WIDTH) else Idle
  }

  function Crowd(k: nat): State {
    State((k + 1) % WIDTH, 0, 0, Waits(k), k + 1, 0, 0, map t | t in UpTo(k) :: t)
  }

  function Quiet(): State { State(0, 0, 0, map t | t in UpTo(WIDTH) :: Idle, 0, 0, 0, map[]) }

  /** From rest: thread 0 draws and enters, the others draw one after the other, the last one looks. */
  function CrowdAt(i: nat): State {
    if i == 0 then Quiet()
    else if i == 1 then Draw(Quiet(), 0, WriteWait(0))
    else if i <= WIDTH + 2 then Crowd(i - 2)
    else Put(Crowd(WIDTH), WIDTH, Writing(0))
  }

  function CrowdStep(i: nat): Step {
    if i == 0 then DrawWrite(0) else if i == 1 then Go(0) else if i < WIDTH + 2 then DrawWrite(i - 1) else Go(WIDTH)
  }

  lemma {:induction false} OneMoreWaits(k: nat)
    requires k < WIDTH
    ensures Waits(k)[k + 1 := WriteWait((k + 1) % WIDTH)] == Waits(k + 1)
    ensures Crowd(k).number[k + 1 := k + 1] == Crowd(k + 1).number
  {
    assert Waits(k)[k + 1 := WriteWait((k + 1) % WIDTH)].Keys == Waits(k + 1).Keys;
    assert Crowd(k).number[k + 1 := k + 1].Keys == Crowd(k + 1).number.Keys;
  }

  lemma {:induction false} CrowdSize(k: nat)
    requires k <= WIDTH
    ensures |Active(Waits(k))| == k + 1
  {
    if k == 0 {
      assert Active(Waits(0)) == {0};
    } else {
      CrowdSize(k - 1);
      OneMoreWaits(k - 1);
      Moved(Waits(k - 1), k, WriteWait(k % WIDTH));
    }
  }

  lemma {:induction false} CrowdStart()
    ensures Next(CrowdAt(1), Go(0)) == Crowd(0)
  {
    assert Next(CrowdAt(1), Go(0)).at == Waits(0);
    assert Next(CrowdAt(1), Go(0)).number == Crowd(0).number;
  }

  lemma {:induction false} CrowdTaken(i: nat)
    requires i <= WIDTH + 2
    ensures Taken(CrowdAt(i), CrowdStep(i), CrowdAt(i + 1), WIDTH + 1)
  {
    if i == 0 {
      assert Active(Quiet().at) == {};
    } else if i == 1 {
      CrowdStart();
    } else if i < WIDTH + 2 {
      CrowdSize(i - 2);
      OneMoreWaits(i - 2);
      IncMod(i - 1);
    }
  }

  /**
   With one ticket more the lock fails: the 2^16 tickets behind a writer's wrap round to it, and
   the last to draw enters beside it.
   */
  lemma {:induction false} OneTicketTooMany() returns (run: seq<State>, steps: seq<Step>)
    ensures IsRun(run, steps, WIDTH + 1) && !Excludes(run)
  {
    run, steps := seq(WIDTH + 4, i requires i >= 0 => CrowdAt(i)), seq(WIDTH + 3, i requires i >= 0 => CrowdStep(i));
    forall i | 0 <= i < |steps| ensures Taken(run[i], steps[i], run[i + 1], WIDTH + 1) { CrowdTaken(i); }
    var last := run[WIDTH + 3];
    assert last == Put(Crowd(WIDTH), WIDTH, Writing(0));
    assert 0 in last.at && WIDTH in last.at && InWrite(last.at[0]) && InWrite(last.at[WIDTH]);
  }

  /** A bound on the outstanding tickets keeps the lock exclusive in every run if and only if it is at most 2^16. */
  lemma {:induction false} BoundExact(bound: nat)
    ensures (forall run: seq<State>, steps: seq<Step> | IsRun(run, steps, bound) :: Excludes(run)) <==> bound <= WIDTH
  {
    if bound <= WIDTH {
      forall run: seq<State>, steps: seq<Step> | IsRun(run, steps, bound) ensures Excludes(run) {
        forall i, t, u | 0 <= i < |run| && t in run[i].at && u in run[i].at && t != u && InWrite(run[i].at[t])
          ensures !run[i].at[u].Reading? && !run[i].at[u].ReadEnter? && !InWrite(run[i].at[u])
        {
          Exclusion(run, steps, bound, i, t, u);
        }
      }
    } else {
      var run, steps := OneTicketTooMany();
      forall i | 0 <= i < |steps| ensures Taken(run[i], steps[i], run[i + 1], bound) {
        assert Taken(run[i], steps[i], run[i + 1], WIDTH + 1);
      }
      assert IsRun(run, steps, bound);
    }
  }
}
