/** Completion of block requests (block/block.c). */
module BlockCompletion {
  // One handler, the thread that starts it and any number of completions; each block under the
  // handler's lock is a step, in any order.

  import BlockQueue

  /** Where the starting thread is: launching requests, in the wait loop, or through. */
  datatype Starter =
    | Launching
    | Check                // about to lock the handler and compare done with num
    | Prep(seen: nat)      // about to join the wait queue
    | Load(seen: nat)      // about to check that done has not moved
    | Asleep
    | Returned

  /**
   num, done, setup and async are the handler's fields; ready is the number of requests set up and
   not launched, open that of those launched and not completed; locked tells that the last completion
   holds the lock, about to wake; queued and woken describe the starter's waiter; events is how often
   the event was queued; err tells whether a request failed.
   */
  datatype State = State(
    num: nat, done: nat, setup: bool, async: bool, ready: nat, open: nat, starter: Starter,
    locked: bool, queued: bool, woken: bool, events: nat, err: bool)

  datatype Step = Ready | Launch | Refuse | Start | AbortStart | Complete(err: bool) | Wake | Go

  ghost predicate Enabled(st: State, s: Step) {
    match s
    case Ready => st.starter == Launching
    case Launch => st.starter == Launching && st.ready > 0
    case Refuse => st.starter == Launching && st.ready > 0 && !st.locked
    case Start => st.starter == Launching && !st.locked
    case AbortStart => st.starter == Launching && !st.locked
    case Complete(_) => st.open > 0 && !st.locked
    case Wake => st.locked
    case Go =>
      match st.starter
      case Check => !st.locked
      case Prep(_) => true
      case Load(_) => true
      case Asleep => st.woken
      case _ => false
  }

  /** blk_req_launch; a request that is refused is completed on the spot. */
  function Launched(st: State): State
    requires st.ready > 0
  {
    st.(ready := st.ready - 1, open := st.open + 1)
  }

  /** blk_handler_start, up to the wait loop. */
  function Started(st: State): State {
    if st.async
      then st.(setup := true, starter := Returned, events := if st.num == st.done then st.events + 1 else st.events)
    else st.(setup := true, starter := Check)
  }

  /** blk_req_done, up to the wake. */
  function Completed(st: State, err: bool): State
    requires st.open > 0
  {
    var r := st.(done := st.done + 1, open := st.open - 1, err := st.err || err);
    if r.done < r.num || !r.setup then r
    else if r.async then r.(events := r.events + 1)
    else r.(locked := true)
  }

  ghost function DoGo(st: State): State
    requires Enabled(st, Go)
  {
    match st.starter
    case Check => if st.done == st.num then st.(starter := Returned) else st.(starter := Prep(st.done))
    case Prep(seen) => st.(starter := Load(seen), queued := true, woken := false)
    case Load(seen) => if st.done == seen then st.(starter := Asleep) else st.(starter := Check, queued := false)
    case Asleep => st.(starter := Check, queued := false)
  }

  ghost function Next(st: State, s: Step): State
    requires Enabled(st, s)
  {
    match s
    case Ready => st.(num := st.num + 1, ready := st.ready + 1)
    case Launch => Launched(st)
    case Refuse => Completed(Launched(st), true)
    case Start => Started(st)
    case AbortStart => Started(st.(async := false))
    case Complete(err) => Completed(st, err)
    case Wake => st.(locked := false, woken := st.woken || st.queued)
    case Go => DoGo(st)
  }

  ghost predicate Inv(st: State) {
    && st.done + st.open + st.ready == st.num
    && (st.setup <==> st.starter != Launching)
    && st.events == (if st.async && st.setup && st.done == st.num then 1 else 0)
    && (st.starter == Returned && !st.async ==> st.done == st.num)
    && (st.locked ==> st.done == st.num && !st.async && st.setup && st.starter != Returned)
    && (st.starter.Load? || st.starter == Asleep ==> st.queued)
    && (st.starter == Asleep && !st.woken ==> st.done < st.num || st.locked)
    && (st.starter.Prep? || st.starter.Load? ==> st.starter.seen <= st.done && st.starter.seen < st.num)
    && (st.async && st.setup ==> st.starter == Returned)
  }

  lemma {:induction false} InvNext(st: State, s: Step)
    requires Inv(st) && Enabled(st, s)
    ensures Inv(Next(st, s))
  {
    match s
    case Go =>
    case _ =>
  }

  ghost predicate Init(st: State) {
    st.num == st.done == st.ready == st.open == st.events == 0 && !st.setup && st.starter == Launching && !st.locked
      && !st.queued && !st.woken && !st.err
  }

  ghost predicate IsRun(run: seq<State>, steps: seq<Step>) {
    && |run| == |steps| + 1 && Init(run[0])
    && forall i | 0 <= i < |steps| :: Taken(run[i], steps[i], run[i + 1])
  }

  ghost predicate Taken(st: State, s: Step, st': State) { Enabled(st, s) && st' == Next(st, s) }

  lemma {:induction false} RunInv(run: seq<State>, steps: seq<Step>, i: nat)
    requires IsRun(run, steps) && i < |run|
    ensures Inv(run[i])
  {
    if i > 0 {
      RunInv(run, steps, i - 1);
      assert Taken(run[i - 1], steps[i - 1], run[i]);
      InvNext(run[i - 1], steps[i - 1]);
    }
  }

  /** An asynchronous handler's event is queued once, when it is started and all requests are done, in every order. */
  lemma {:induction false} EventOnce(run: seq<State>, steps: seq<Step>, i: nat)
    requires IsRun(run, steps) && i < |run|
    ensures run[i].events <= 1
    ensures run[i].events == 1 <==> run[i].async && run[i].setup && run[i].open == 0 && run[i].ready == 0
  {
    RunInv(run, steps, i);
  }

  /** A synchronous start returns only when every request is done and nobody holds the handler any more. */
  lemma {:induction false} ReturnsWhenDone(run: seq<State>, steps: seq<Step>, i: nat)
    requires IsRun(run, steps) && i < |run| && run[i].starter == Returned && !run[i].async
    ensures run[i].done == run[i].num && run[i].open == 0 && run[i].ready == 0 && !run[i].locked
  {
    RunInv(run, steps, i);
  }

  /** And it does not sleep on: asleep, it has been woken, or a completion is still to come or about to wake it. */
  lemma {:induction false} NoLostCompletion(run: seq<State>, steps: seq<Step>, i: nat)
    requires IsRun(run, steps) && i < |run| && run[i].starter == Asleep
    ensures run[i].woken || run[i].open > 0 || run[i].ready > 0 || run[i].locked
  {
    RunInv(run, steps, i);
  }

  /** A request of the handler fails. */
  predicate Errs(s: Step) { s == Refuse || s == Complete(true) }

  /** Every failure is reported, and nothing else is, whenever the handler is asked. */
  lemma {:induction false} ReportsErrors(run: seq<State>, steps: seq<Step>, i: nat)
    requires IsRun(run, steps) && i < |run|
    ensures run[i].err <==> exists j :: 0 <= j < i && Errs(steps[j])
  {
    if i > 0 {
      ReportsErrors(run, steps, i - 1);
      assert Taken(run[i - 1], steps[i - 1], run[i]);
    }
  }

  ghost predicate Path(run: seq<State>, steps: seq<Step>) {
    |run| == |steps| + 1 && forall i | 0 <= i < |steps| :: Taken(run[i], steps[i], run[i + 1])
  }

  lemma {:induction false} Extend(run: seq<State>, steps: seq<Step>, s: Step)
    returns (run': seq<State>, steps': seq<Step>)
    requires Path(run, steps) && Enabled(run[|steps|], s)
    ensures Path(run', steps') && run'[0] == run[0] && steps' == steps + [s] && run'[|steps'|] == Next(run[|steps|], s)
  {
    run', steps' := run + [Next(run[|steps|], s)], steps + [s];
    forall i | 0 <= i < |steps'| ensures Taken(run'[i], steps'[i], run'[i + 1]) {
      if i < |steps| { assert Taken(run[i], steps[i], run[i + 1]); }
    }
  }

  /** Once all requests are done a synchronous start returns: the wake and its own steps are all it takes. */
  lemma {:induction false} DoneReturns(st: State) returns (run: seq<State>, steps: seq<Step>)
    requires Inv(st) && st.setup && !st.async && st.done == st.num
    ensures Path(run, steps) && run[0] == st && |steps| <= 4 && forall s | s in steps :: s == Wake || s == Go
    ensures run[|steps|].starter == Returned && run[|steps|].err == st.err
  {
    run, steps := [st], [];
    if st.locked { run, steps := Extend(run, steps, Wake); }
    if st.starter.Prep? { run, steps := Extend(run, steps, Go); }
    if st.starter.Prep? || st.starter.Load? || st.starter == Asleep { run, steps := Extend(run, steps, Go); }
    if st.starter != Returned { run, steps := Extend(run, steps, Go); }
  }

  // ----- blk_io -----

  /**
   Where blk_io is: about to set up its one request, to launch it, to start the handler, in the
   start, or skipping it.
   */
  datatype IoPc = AtInit | AtLaunch | AtStart | InStart | AtUninit | Torn

  datatype Io = Io(st: State, pc: IoPc)

  /** What blk_req_launch finds: the provider's removed flag, the device's queue, and what its start would return. */
  datatype IoStep =
    | IoInit
    | IoLaunch(removed: bool, queue: BlockQueue.State, r: BlockQueue.Req, ok: bool)
    | IoStart
    | IoUninit
    | Other(s: Step)

  predicate Fails(s: IoStep) { s.IoLaunch? && (s.removed || BlockQueue.Refused(s.queue, s.r, s.ok)) }

  ghost predicate IoEnabled(io: Io, s: IoStep) {
    match s
    case IoInit => io.pc == AtInit && Enabled(io.st, Ready)
    case IoLaunch(_, _, _, _) => io.pc == AtLaunch && Enabled(io.st, if Fails(s) then Refuse else Launch)
    case IoStart => io.pc == AtStart && Enabled(io.st, Start)
    case IoUninit => io.pc == AtUninit || (io.pc == InStart && io.st.starter == Returned)
    case Other(o) => (o.Complete? || o == Wake || o == Go) && Enabled(io.st, o)
  }

  ghost function IoNext(io: Io, s: IoStep): Io
    requires IoEnabled(io, s)
  {
    match s
    case IoInit => Io(Next(io.st, Ready), AtLaunch)
    case IoLaunch(_, _, _, _) => if Fails(s) then Io(Next(io.st, Refuse), AtUninit)
      else Io(Next(io.st, Launch), AtStart)
    case IoStart => Io(Next(io.st, Start), InStart)
    case IoUninit => Io(io.st, Torn)
    case Other(o) => Io(Next(io.st, o), io.pc)
  }

  ghost predicate IoRun(run: seq<Io>, steps: seq<IoStep>) {
    && |run| == |steps| + 1 && Init(run[0].st) && !run[0].st.async && run[0].pc == AtInit
    && forall i | 0 <= i < |steps| :: IoTaken(run[i], steps[i], run[i + 1])
  }

  ghost predicate IoTaken(io: Io, s: IoStep, io': Io) { IoEnabled(io, s) && io' == IoNext(io, s) }

  /** Whether the launch failed, if there was one. */
  ghost predicate Failed(steps: seq<IoStep>) { exists i :: 0 <= i < |steps| && Fails(steps[i]) }

  ghost predicate IoInv(io: Io, failed: bool) {
    var st := io.st;
    && Inv(st) && !st.async && st.num == (if io.pc == AtInit then 0 else 1)
    && st.ready == (if io.pc == AtLaunch then 1 else 0)
    && (io.pc == InStart ==> st.setup && !failed)
    && (io.pc == AtUninit ==> !st.setup && failed && st.open == 0)
    && (io.pc == Torn ==>
      st.open == 0 && !st.locked && (st.setup <==> !failed) && (st.setup ==> st.starter == Returned))
    && (io.pc == AtInit || io.pc == AtLaunch || io.pc == AtStart ==> !st.setup && !failed)
  }

  lemma {:induction false} FailedNext(steps: seq<IoStep>, i: nat)
    requires i < |steps|
    ensures Failed(steps[..i + 1]) <==> Failed(steps[..i]) || Fails(steps[i])
  {
    if Failed(steps[..i]) {
      var j :| 0 <= j < i && Fails(steps[..i][j]);
      assert Fails(steps[..i + 1][j]);
    }
    if Fails(steps[i]) { assert Fails(steps[..i + 1][i]); }
    if Failed(steps[..i + 1]) && !Fails(steps[i]) {
      var j :| 0 <= j < i + 1 && Fails(steps[..i + 1][j]);
      assert Fails(steps[..i][j]);
    }
  }

  lemma {:induction false} OtherInv(io: Io, o: Step, failed: bool)
    requires IoInv(io, failed) && IoEnabled(io, Other(o))
    ensures IoInv(IoNext(io, Other(o)), failed)
  {
    InvNext(io.st, o);
  }

  lemma {:induction false} LaunchInv(io: Io, s: IoStep)
    requires IoInv(io, false) && IoEnabled(io, s) && s.IoLaunch?
    ensures IoInv(IoNext(io, s), Fails(s))
  {
    if Fails(s) {
      InvNext(io.st, Refuse);
      assert IoNext(io, s).st == Next(io.st, Refuse);
    } else {
      InvNext(io.st, Launch);
      assert IoNext(io, s).st == Next(io.st, Launch);
    }
  }

  lemma {:induction false} UninitInv(io: Io, failed: bool)
    requires IoInv(io, failed) && IoEnabled(io, IoUninit)
    ensures IoInv(IoNext(io, IoUninit), failed)
  {}

  lemma {:induction false} InitInv(io: Io)
    requires IoInv(io, false) && IoEnabled(io, IoInit)
    ensures IoInv(IoNext(io, IoInit), false)
  {
    InvNext(io.st, Ready);
  }

  lemma {:induction false} StartInv(io: Io)
    requires IoInv(io, false) && IoEnabled(io, IoStart)
    ensures IoInv(IoNext(io, IoStart), false)
  {
    InvNext(io.st, Start);
  }

  lemma {:induction false} IoInvNext(io: Io, s: IoStep, failed: bool)
    requires IoInv(io, failed) && IoEnabled(io, s)
    ensures IoInv(IoNext(io, s), if s.IoLaunch? then Fails(s) else failed)
    ensures !s.IoLaunch? ==> !Fails(s)
    ensures s.IoLaunch? ==> !failed
  {
    if s.IoLaunch? {
      assert !failed;
      LaunchInv(io, s);
    } else if s.IoUninit? {
      UninitInv(io, failed);
    } else if s.Other? {
      OtherInv(io, s.s, failed);
    } else if s.IoInit? {
      assert !failed;
      InitInv(io);
    } else {
      assert !failed;
      StartInv(io);
    }
  }

  lemma {:induction false} IoRunInv(run: seq<Io>, steps: seq<IoStep>, i: nat)
    requires IoRun(run, steps) && i < |run|
    ensures IoInv(run[i], Failed(steps[..i]))
  {
    if i > 0 {
      IoRunInv(run, steps, i - 1);
      assert IoTaken(run[i - 1], steps[i - 1], run[i]);
      IoInvNext(run[i - 1], steps[i - 1], Failed(steps[..i - 1]));
      FailedNext(steps, i - 1);
    }
  }

  /**
   In every run of blk_io the assertion of blk_handler_uninit, that the handler was set up, holds if
   and only if the launch did not fail: the provider was not removed and the device did not refuse.
   */
  lemma {:induction false} UninitAssertion(run: seq<Io>, steps: seq<IoStep>, i: nat)
    requires IoRun(run, steps) && i < |steps| && steps[i] == IoUninit
    ensures run[i].st.setup <==> !Failed(steps[..i])
  {
    IoRunInv(run, steps, i);
    assert IoTaken(run[i], steps[i], run[i + 1]);
  }

  /** Either way nobody uses the handler any more when it goes away. */
  lemma {:induction false} UninitSafe(run: seq<Io>, steps: seq<IoStep>, i: nat)
    requires IoRun(run, steps) && i < |steps| && steps[i] == IoUninit
    ensures run[i].st.open == 0 && run[i].st.ready == 0 && !run[i].st.locked && run[i].st.done == 1
  {
    IoRunInv(run, steps, i);
    assert IoTaken(run[i], steps[i], run[i + 1]);
  }

  /** The request failed: at its launch or later. */
  predicate IoErrs(s: IoStep) { Fails(s) || s == Other(Complete(true)) }

  /** blk_io returns an error if and only if its request failed. */
  lemma {:induction false} IoReports(run: seq<Io>, steps: seq<IoStep>, i: nat)
    requires IoRun(run, steps) && i < |run|
    ensures run[i].st.err <==> exists j :: 0 <= j < i && IoErrs(steps[j])
  {
    if i > 0 {
      IoReports(run, steps, i - 1);
      assert IoTaken(run[i - 1], steps[i - 1], run[i]);
      assert run[i].st.err <==> run[i - 1].st.err || IoErrs(steps[i - 1]);
    }
  }

  /** A run in which it fails: the provider has been removed. */
  lemma {:induction false} RemovedProvider(queue: BlockQueue.State) returns (run: seq<Io>, steps: seq<IoStep>)
    ensures IoRun(run, steps) && |steps| == 3 && steps[2] == IoUninit && !run[2].st.setup
  {
    var io := Io(State(0, 0, false, false, 0, 0, Launching, false, false, false, 0, false), AtInit);
    steps := [IoInit, IoLaunch(true, queue, 0, true), IoUninit];
    var io1 := IoNext(io, steps[0]);
    var io2 := IoNext(io1, steps[1]);
    run := [io, io1, io2, IoNext(io2, steps[2])];
    assert IoTaken(run[0], steps[0], run[1]) && IoTaken(run[1], steps[1], run[2]) && IoTaken(run[2], steps[2], run[3]);
  }
}
