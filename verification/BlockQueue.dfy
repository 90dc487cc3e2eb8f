/** The bounded request queue of a block device (block/device.c), every locked block a step. */
module BlockQueue {
  import opened Lists

  type Req = nat

  /**
   avail, running and pending are the queue's fields. inflight are the requests that hold a slot;
   direct and drained are those whose start has not yet returned, by whom it was called: the device
   may be done with them before that. callback tells that the drain loop is between two rounds.
   */
  datatype State = State(
    maxreq: nat, avail: nat, running: bool, pending: seq<Req>,
    inflight: set<Req>, direct: set<Req>, drained: set<Req>, callback: bool)

  datatype Step =
    | Request(r: Req)            // blk_dev_request, up to the start of the request
    | DirectResult(r: Req, ok: bool)
    | Begin                      // the queued event runs blk_req_queue_callback
    | Drain                      // one round of its loop, up to the start of a request, or its end
    | DrainResult(r: Req, ok: bool)
    | Finish(r: Req)             // the device is done with a request

  ghost predicate Enabled(st: State, s: Step) {
    match s
    case Request(r) => r !in st.inflight && r !in st.pending && r !in st.direct && r !in st.drained
    case DirectResult(r, ok) => r in st.direct && (ok || r in st.inflight)
    case Begin => st.running && !st.callback && st.drained == {}
    case Drain => st.callback && st.drained == {}
    case DrainResult(r, ok) => r in st.drained && (ok || r in st.inflight)
    case Finish(r) => r in st.inflight
  }

  /** blk_req_queue_done */
  function Done(st: State, r: Req): State {
    st.(avail := st.avail + 1, running := st.running || st.pending != [], inflight := st.inflight - {r})
  }

  function DoRequest(st: State, r: Req): State {
    if st.avail > 0 then st.(avail := st.avail - 1, inflight := st.inflight + {r}, direct := st.direct + {r})
    else st.(pending := st.pending + [r])
  }

  /** blk_dev_request returns an error: the device took the request at once and its start failed. */
  predicate Refused(st: State, r: Req, ok: bool) { r in DoRequest(st, r).direct && r !in st.direct && !ok }

  function DoDrain(st: State): State {
    if st.avail > 0 && st.pending != [] then
      var r := st.pending[0];
      st.(avail := st.avail - 1, pending := st.pending[1..], inflight := st.inflight + {r}, drained := st.drained + {r})
    else st.(running := false, callback := false)
  }

  ghost function Next(st: State, s: Step): State
    requires Enabled(st, s)
  {
    match s
    case Request(r) => DoRequest(st, r)
    case DirectResult(r, ok) =>
      var st' := st.(direct := st.direct - {r});
      if ok then st' else Done(st', r)
    case Begin => st.(callback := true)
    case Drain => DoDrain(st)
    case DrainResult(r, ok) =>
      if ok then st.(drained := st.drained - {r})
      else st.(drained := st.drained - {r}, inflight := st.inflight - {r}, avail := st.avail + 1)
    case Finish(r) => Done(st, r)
  }

  ghost predicate Inv(st: State) {
    && |st.inflight| + st.avail == st.maxreq
    && NoDup(st.pending) && (forall r | r in st.pending :: r !in st.inflight && r !in st.direct && r !in st.drained)
    && (st.pending != [] && st.avail > 0 ==> st.running)
    && (st.callback || st.drained != {} ==> st.running) && (st.drained != {} ==> st.callback)
    && (forall r, q | r in st.drained && q in st.drained :: r == q)
  }

  lemma {:induction false} RequestInv(st: State, r: Req)
    requires Inv(st) && Enabled(st, Request(r))
    ensures Inv(DoRequest(st, r))
  {}

  lemma {:induction false} DrainInv(st: State)
    requires Inv(st) && Enabled(st, Drain)
    ensures Inv(DoDrain(st))
  {
    if st.pending != [] {
      assert st.pending == [st.pending[0]] + st.pending[1..] && st.pending[0] in st.pending;
      assert forall r | r in st.pending[1..] :: r in st.pending && r != st.pending[0];
    }
  }

  lemma {:induction false} DoneInv(st: State, r: Req)
    requires Inv(st) && r in st.inflight
    ensures Inv(Done(st, r))
  {
    assert |st.inflight - {r}| == |st.inflight| - 1;
  }

  lemma {:induction false} ResultInv(st: State, r: Req, ok: bool)
    requires Inv(st) && Enabled(st, DrainResult(r, ok))
    ensures Inv(Next(st, DrainResult(r, ok)))
  {
    if !ok { assert |st.inflight - {r}| == |st.inflight| - 1; }
  }

  lemma {:induction false} InvNext(st: State, s: Step)
    requires Inv(st) && Enabled(st, s)
    ensures Inv(Next(st, s))
  {
    match s
    case Request(r) => RequestInv(st, r);
    case DirectResult(r, ok) => if !ok { DoneInv(st.(direct := st.direct - {r}), r); }
    case Begin =>
    case Drain => DrainInv(st);
    case DrainResult(r, ok) => ResultInv(st, r, ok);
    case Finish(r) => DoneInv(st, r);
  }

  ghost predicate Init(st: State) {
    st.avail == st.maxreq && !st.running && st.pending == [] && st.inflight == {} && st.direct == {}
      && st.drained == {} && !st.callback
  }

  ghost predicate IsRun(run: seq<State>, steps: seq<Step>) {
    && |run| == |steps| + 1 && Init(run[0])
    && forall i | 0 <= i < |steps| :: Taken(run[i], steps[i], run[i + 1])
  }

  ghost predicate Taken(st: State, s: Step, st': State) { Enabled(st, s) && st' == Next(st, s) }

  lemma {:induction false} RunInv(run: seq<State>, steps: seq<Step>, i: nat)
    requires IsRun(run, steps) && i < |run|
    ensures Inv(run[i])
  {
    if i > 0 {
      RunInv(run, steps, i - 1);
      assert Taken(run[i - 1], steps[i - 1], run[i]);
      InvNext(run[i - 1], steps[i - 1]);
    }
  }

  /** Slots are conserved: never more requests at the device than it takes. */
  lemma {:induction false} SlotsConserved(run: seq<State>, steps: seq<Step>, i: nat)
    requires IsRun(run, steps) && i < |run|
    ensures |run[i].inflight| + run[i].avail == run[i].maxreq == run[0].maxreq
  {
    RunInv(run, steps, i);
    if i > 0 {
      SlotsConserved(run, steps, i - 1);
      assert Taken(run[i - 1], steps[i - 1], run[i]);
    }
  }

  /** No request is stranded: with a slot free and work pending the drain loop is running or queued. */
  lemma {:induction false} NothingStranded(run: seq<State>, steps: seq<Step>, i: nat)
    requires IsRun(run, steps) && i < |run| && run[i].pending != [] && run[i].avail > 0
    ensures run[i].running
  {
    RunInv(run, steps, i);
  }

  /** The assertion of blk_req_queue_done: a slot given back is one that was taken. */
  lemma {:induction false} DoneAssertion(run: seq<State>, steps: seq<Step>, i: nat, r: Req)
    requires IsRun(run, steps) && i < |run| && r in run[i].inflight
    ensures run[i].avail < run[i].maxreq
  {
    RunInv(run, steps, i);
    assert run[i].inflight != {};
  }

  // ----- No request is lost -----

  /** Waiting for a slot, at the device, or with its start still to return. */
  predicate Known(st: State, r: Req) { r in st.pending || r in st.inflight || r in st.direct || r in st.drained }

  /** The device is done with the request, or refuses it. */
  predicate Ends(s: Step, r: Req) { s == Finish(r) || s == DirectResult(r, false) || s == DrainResult(r, false) }

  lemma {:induction false} KnownNext(st: State, s: Step, r: Req)
    requires Enabled(st, s) && (Known(st, r) || s == Request(r))
    requires r in st.direct || r in st.drained ==> r in st.inflight
    ensures Ends(s, r) || Known(Next(st, s), r)
  {
    if s.Drain? && st.pending != [] { assert st.pending == [st.pending[0]] + st.pending[1..]; }
  }

  /** A request that was submitted is known until the device is done with it or refuses it. */
  lemma {:induction false} RequestKept(run: seq<State>, steps: seq<Step>, i: nat, j: nat, r: Req)
    requires IsRun(run, steps) && i < j < |run| && steps[i] == Request(r)
    requires forall k | i < k < j :: !Ends(steps[k], r)
    ensures Known(run[j], r) && (r in run[j].direct || r in run[j].drained ==> r in run[j].inflight)
  {
    assert Taken(run[j - 1], steps[j - 1], run[j]);
    if j > i + 1 {
      RequestKept(run, steps, i, j - 1, r);
      KnownNext(run[j - 1], steps[j - 1], r);
    }
  }

  // ----- Requests are started in order -----

  /** The requests that found no slot, in the order in which they came. */
  ghost function Queued(run: seq<State>, steps: seq<Step>, i: nat): seq<Req>
    requires i <= |steps| <= |run|
  {
    if i == 0 then [] else Queued(run, steps, i - 1) + Added(run[i - 1], steps[i - 1])
  }

  function Added(st: State, s: Step): seq<Req> { if s.Request? && st.avail == 0 then [s.r] else [] }

  /** The requests that the drain loop handed to the device, in the order in which it did. */
  ghost function Started(run: seq<State>, steps: seq<Step>, i: nat): seq<Req>
    requires i <= |steps| < |run|
  {
    if i == 0 then [] else Started(run, steps, i - 1) + Handed(run[i - 1], steps[i - 1], run[i])
  }

  /** The request that a step of the drain loop brings to the device. */
  ghost function Handed(st: State, s: Step, st': State): seq<Req> {
    if s.Drain? && st'.drained != {} then [Pick(st'.drained)] else []
  }

  ghost function Pick(s: set<Req>): Req
    requires s != {}
  {
    var r :| r in s; r
  }

  lemma {:induction false} HandedNext(st: State, s: Step)
    requires Inv(st) && Enabled(st, s)
    ensures Handed(st, s, Next(st, s)) + Next(st, s).pending == st.pending + Added(st, s)
    ensures forall r | r in Handed(st, s, Next(st, s)) :: r in Next(st, s).inflight && r !in st.inflight
  {
    if s.Drain? && st.avail > 0 && st.pending != [] {
      var r := st.pending[0];
      assert r in st.pending && st.pending == [r] + st.pending[1..];
      assert Next(st, s).drained == {r} && Pick({r}) == r;
    }
  }

  /** First come, first served: what was started and what is pending is what was queued, in that order. */
  lemma {:induction false} InOrder(run: seq<State>, steps: seq<Step>, i: nat)
    requires IsRun(run, steps) && i < |run|
    ensures Started(run, steps, i) + run[i].pending == Queued(run, steps, i)
  {
    if i > 0 {
      var st, s := run[i - 1], steps[i - 1];
      InOrder(run, steps, i - 1);
      RunInv(run, steps, i - 1);
      assert Taken(st, s, run[i]);
      HandedNext(st, s);
      Shifted(Started(run, steps, i - 1), st.pending, Queued(run, steps, i - 1), Handed(st, s, run[i]), run[i].pending,
        Added(st, s));
    }
  }

  lemma {:induction false} Shifted(out: seq<Req>, p: seq<Req>, all: seq<Req>, h: seq<Req>, p': seq<Req>,
    more: seq<Req>)
    requires out + p == all && h + p' == p + more
    ensures out + h + p' == all + more
  {
    assert out + h + p' == out + (h + p') == out + p + more;
  }

  /** A request that finds a slot is at the device at once. */
  lemma {:induction false} SlotIsUsed(run: seq<State>, steps: seq<Step>, i: nat, r: Req)
    requires IsRun(run, steps) && i < |steps| && steps[i] == Request(r)
    ensures if run[i].avail > 0 then r in run[i + 1].inflight && run[i + 1].pending == run[i].pending
      else run[i + 1].pending == run[i].pending + [r] && run[i + 1].inflight == run[i].inflight
  {
    assert Taken(run[i], steps[i], run[i + 1]);
  }

  // ----- The drain loop gets on -----

  ghost predicate Path(run: seq<State>, steps: seq<Step>) {
    |run| == |steps| + 1 && forall i | 0 <= i < |steps| :: Taken(run[i], steps[i], run[i + 1])
  }

  lemma {:induction false} Extend(run: seq<State>, steps: seq<Step>, s: Step)
    returns (run': seq<State>, steps': seq<Step>)
    requires Path(run, steps) && Enabled(run[|steps|], s)
    ensures Path(run', steps') && run'[0] == run[0] && |steps'| == |steps| + 1
    ensures run'[|steps'|] == Next(run[|steps|], s) && steps' == steps + [s]
  {
    run', steps' := run + [Next(run[|steps|], s)], steps + [s];
    forall i | 0 <= i < |steps'| ensures Taken(run'[i], steps'[i], run'[i + 1]) {
      if i < |steps| { assert Taken(run[i], steps[i], run[i + 1]); }
    }
  }

  /** Steps that the device and the drain loop take, and no submitter and no completion. */
  predicate OfLoop(s: Step) { s.Begin? || s.Drain? || (s.DrainResult? && s.ok) }

  /**
   Whenever a slot is free and requests wait, the drain loop by itself hands the first of them to
   the device within three steps.
   */
  lemma {:induction false} FirstIsStarted(st: State) returns (run: seq<State>, steps: seq<Step>)
    requires Inv(st) && st.avail > 0 && st.pending != []
    ensures Path(run, steps) && run[0] == st && |steps| <= 3 && (forall s | s in steps :: OfLoop(s))
    ensures var end := run[|steps|]; st.pending[0] in end.inflight && end.pending == st.pending[1..]
  {
    run, steps := [st], [];
    if st.drained != {} {
      var r :| r in st.drained;
      run, steps := Extend(run, steps, DrainResult(r, true));
      assert run[|steps|].drained == {};
    }
    if !st.callback { run, steps := Extend(run, steps, Begin); }
    run, steps := Extend(run, steps, Drain);
  }
}
