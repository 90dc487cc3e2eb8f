/** The scheduler's run queue (kern/sched.c). */
module RunQueue {
  import opened Lists

  type Tid = nat

  const NLIST: nat := 32

  datatype Prio = Intr | Io | Lock | Kernel | Input | Signal | Normal

  datatype Phase = Spawned | Runnable | Running | Sleeping | Exited

  // ----- Sequences -----

  function Total(qs: seq<seq<Tid>>): nat { if qs == [] then 0 else Total(qs[..|qs| - 1]) + |qs[|qs| - 1]| }

  lemma {:induction false} TotalSet(qs: seq<seq<Tid>>, k: nat, q: seq<Tid>)
    requires k < |qs|
    ensures Total(qs[k := q]) + |qs[k]| == Total(qs) + |q|
  {
    var n := |qs| - 1;
    if k == n {
      assert qs[k := q][..n] == qs[..n];
    } else {
      assert qs[k := q][..n] == qs[..n][k := q];
      TotalSet(qs[..n], k, q);
    }
  }

  lemma {:induction false} TotalZero(qs: seq<seq<Tid>>)
    requires forall k | 0 <= k < |qs| :: qs[k] == []
    ensures Total(qs) == 0
  {
    if qs != [] { TotalZero(qs[..|qs| - 1]); }
  }

  lemma {:induction false} SomeNotEmpty(qs: seq<seq<Tid>>)
    requires Total(qs) > 0
    ensures exists k :: 0 <= k < |qs| && qs[k] != []
  {
    if forall k | 0 <= k < |qs| :: qs[k] == [] {
      TotalZero(qs);
      assert false;
    }
  }

  // ----- Queues -----

  ghost predicate Queued(runq: seq<seq<Tid>>, intr: seq<Tid>, t: Tid) {
    t in intr || exists k :: 0 <= k < |runq| && t in runq[k]
  }

  /** No thread is queued twice. */
  ghost predicate Once(runq: seq<seq<Tid>>, intr: seq<Tid>) {
    && NoDup(intr) && (forall k | 0 <= k < |runq| :: NoDup(runq[k]))
    && (forall k, t | 0 <= k < |runq| && t in runq[k] :: t !in intr)
    && (forall j, k, t | 0 <= j < k < |runq| && t in runq[j] :: t !in runq[k])
  }

  lemma {:induction false} PopOnce(runq: seq<seq<Tid>>, intr: seq<Tid>, k: nat)
    requires Once(runq, intr) && k < |runq| && runq[k] != []
    ensures
      var runq' := runq[k := runq[k][1..]];
      Once(runq', intr) && forall t :: Queued(runq', intr, t) <==> Queued(runq, intr, t) && t != runq[k][0]
  {
    var h, runq' := runq[k][0], runq[k := runq[k][1..]];
    assert runq[k] == [h] + runq[k][1..];
    forall t ensures Queued(runq', intr, t) <==> Queued(runq, intr, t) && t != h {
      if Queued(runq, intr, t) && t != h && t !in intr {
        var j :| 0 <= j < |runq| && t in runq[j];
        assert t in runq'[j];
      }
      if Queued(runq', intr, t) && t !in intr {
        var j :| 0 <= j < |runq'| && t in runq'[j];
        assert t in runq[j];
      }
    }
  }

  lemma {:induction false} PopIntr(runq: seq<seq<Tid>>, intr: seq<Tid>)
    requires Once(runq, intr) && intr != []
    ensures Once(runq, intr[1..]) && forall t :: Queued(runq, intr[1..], t) <==> Queued(runq, intr, t) && t != intr[0]
  {
    assert intr == [intr[0]] + intr[1..] && intr[0] in intr;
    assert forall t | t in intr[1..] :: t in intr;
    forall t ensures Queued(runq, intr[1..], t) <==> Queued(runq, intr, t) && t != intr[0] {
      assert t == intr[0] ==> t !in intr[1..] && forall k | 0 <= k < |runq| :: t !in runq[k];
    }
  }

  lemma {:induction false} PushOnce(runq: seq<seq<Tid>>, intr: seq<Tid>, k: nat, q: seq<Tid>, x: Tid)
    requires Once(runq, intr) && !Queued(runq, intr, x) && k < |runq| && (q == runq[k] + [x] || q == [x] + runq[k])
    ensures
      var runq' := runq[k := q];
      Once(runq', intr) && Total(runq') == Total(runq) + 1 && forall t ::
        Queued(runq', intr, t) <==> Queued(runq, intr, t) || t == x
  {
    TotalSet(runq, k, q);
    var runq' := runq[k := q];
    assert x !in runq[k];
    forall t ensures Queued(runq', intr, t) <==> Queued(runq, intr, t) || t == x {
      if Queued(runq, intr, t) && t !in intr {
        var j :| 0 <= j < |runq| && t in runq[j];
        assert t in runq'[j];
      }
      if t == x { assert t in runq'[k]; }
    }
  }

  lemma {:induction false} PushIntr(runq: seq<seq<Tid>>, intr: seq<Tid>, x: Tid)
    requires Once(runq, intr) && !Queued(runq, intr, x)
    ensures Once(runq, intr + [x]) && forall t :: Queued(runq, intr + [x], t) <==> Queued(runq, intr, t) || t == x
  {}

  /** The first queue from ptr on, cyclically, that is not empty. */
  ghost predicate Nearest(runq: seq<seq<Tid>>, ptr: nat, k: nat) {
    && |runq| == NLIST && ptr < NLIST && k < NLIST && runq[k] != []
    && forall j | 0 <= j < NLIST && runq[j] != [] :: Distance(ptr, k) <= Distance(ptr, j)
  }

  function Distance(ptr: nat, k: nat): nat
    requires ptr < NLIST && k < NLIST
  {
    if k >= ptr then k - ptr else k + NLIST - ptr
  }

  /** ffs(bits >> from), less the shift: the lowest set bit from there on. */
  method FindBit(bits: set<nat>, from: nat) returns (r: Option<nat>)
    requires from <= NLIST
    ensures r.Some? ==> from <= r.value < NLIST && r.value in bits && forall j | from <= j < r.value :: j !in bits
    ensures r.None? ==> forall j | from <= j < NLIST :: j !in bits
  {
    var i := from;
    while i < NLIST
      invariant from <= i <= NLIST && forall j | from <= j < i :: j !in bits
    {
      if i in bits {
        return Some(i);
      }
      i := i + 1;
    }
    return None;
  }

  /** How far ahead of the current queue a thread is put. */
  function Offset(p: Prio): nat {
    match p
    case Input => 4
    case Signal => 3
    case Kernel => 2
    case Lock => 1
    case Normal => NLIST - 1
    case _ => 0
  }

  // ----- What the distances mean -----

  /** The order in which priorities are served. */
  function Rank(p: Prio): nat {
    match p
    case Intr => 0
    case Io => 1
    case Lock => 2
    case Kernel => 3
    case Signal => 4
    case Input => 5
    case Normal => 6
  }

  ghost predicate FiledAt(prio: map<Tid, Prio>, base: nat, k: nat, t: Tid) {
    t in prio && !prio[t].Intr? && k == (base + Offset(prio[t])) % NLIST
  }

  /** All threads are where their priorities put them when the position was base. */
  ghost predicate Filed(runq: seq<seq<Tid>>, intr: seq<Tid>, prio: map<Tid, Prio>, base: nat) {
    && |runq| == NLIST && base < NLIST
    && (forall t | t in intr :: t in prio && prio[t].Intr?)
    && (forall k, t | 0 <= k < NLIST && t in runq[k] :: FiledAt(prio, base, k, t))
  }

  /** Nothing is left between base and the position. */
  ghost predicate Swept(runq: seq<seq<Tid>>, base: nat, ptr: nat) {
    && |runq| == NLIST && base < NLIST && ptr < NLIST
    && forall k | 0 <= k < NLIST && runq[k] != [] :: Distance(base, ptr) <= Distance(base, k)
  }

  lemma {:induction false} FiledDistance(prio: map<Tid, Prio>, base: nat, k: nat, t: Tid)
    requires base < NLIST && FiledAt(prio, base, k, t)
    ensures k < NLIST && Distance(base, k) == Offset(prio[t])
  {
    var d := Offset(prio[t]);
    if base + d >= NLIST { assert (base + d) % NLIST == base + d - NLIST; }
  }

  /** The thread at the head of the nearest queue has the best priority of all that wait there. */
  lemma {:induction false} BestFirst(runq: seq<seq<Tid>>, intr: seq<Tid>, prio: map<Tid, Prio>, base: nat, ptr: nat,
    k: nat, x: Tid)
    requires Filed(runq, intr, prio, base) && Swept(runq, base, ptr) && Nearest(runq, ptr, k)
    requires Queued(runq, [], x)
    ensures runq[k][0] in prio && x in prio && Rank(prio[runq[k][0]]) <= Rank(prio[x])
    ensures Swept(runq, base, k)
  {
    var j :| 0 <= j < |runq| && x in runq[j];
    assert FiledAt(prio, base, k, runq[k][0]) && FiledAt(prio, base, j, x);
    FiledDistance(prio, base, k, runq[k][0]);
    FiledDistance(prio, base, j, x);
  }

  class Scheduler {
    var runq: seq<seq<Tid>>
    var intr: seq<Tid>
    var ptr: nat
    var notEmpty: set<nat>
    var nthread: nat
    var phase: map<Tid, Phase>
    const idle: Tid

    ghost predicate Valid()
      reads this
    {
      && |runq| == NLIST && ptr < NLIST && Once(runq, intr)
      && (forall k | 0 <= k < NLIST :: k in notEmpty <==> runq[k] != [])
      && nthread == |intr| + Total(runq)
      && !Queued(runq, intr, idle)
      && (forall t | Queued(runq, intr, t) :: t in phase && (phase[t] == Runnable || phase[t] == Spawned))
    }

    /** scheduler_init: empty queues, and the idle thread on none of them. */
    constructor (idle: Tid)
      ensures Valid() && this.idle == idle && nthread == 0 && ptr == 0 && forall t :: !Queued(runq, intr, t)
    {
      var empty: seq<seq<Tid>> := seq(NLIST, _ => []);
      this.idle := idle;
      runq, intr, ptr, notEmpty, nthread, phase := empty, [], 0, {}, 0, map[idle := Runnable];
      new;
      TotalZero(runq);
    }

    /** sched_choose */
    method Choose() returns (t: Tid)
      requires Valid()
      modifies this
      ensures Valid() && !Queued(runq, intr, t)
      ensures old(nthread) == 0 <==> t == idle
      ensures old(nthread) == 0 ==>
        runq == old(runq) && intr == old(intr) && nthread == 0 && ptr == old(ptr) && phase == old(phase)
      ensures old(nthread) > 0 ==> nthread == old(nthread) - 1 && phase == old(phase)[t := Running]
      ensures old(nthread) > 0 ==> Queued(old(runq), old(intr), t) && old(phase)[t] != Exited
      ensures forall x | x != t :: Queued(runq, intr, x) <==> Queued(old(runq), old(intr), x)
      ensures old(intr) != [] ==> t == old(intr)[0] && intr == old(intr)[1..] && runq == old(runq) && ptr == old(ptr)
      ensures old(intr) == [] && old(nthread) > 0 ==>
        && Nearest(old(runq), old(ptr), ptr) && t == old(runq)[ptr][0]
        && runq == old(runq)[ptr := old(runq)[ptr][1..]] && intr == []
    {
      if nthread == 0 {
        return idle;
      }
      nthread := nthread - 1;
      if intr != [] {
        PopIntr(runq, intr);
        t := intr[0];
        intr := intr[1..];
      } else {
        t := PopNearest();
        PopOnce(old(runq), intr, ptr);
        TotalSet(old(runq), ptr, old(runq)[ptr][1..]);
      }
      phase := phase[t := Running];
    }

    /** scheduler_add_thread */
    method Add(t: Tid, prio: Prio)
      requires Valid() && !Queued(runq, intr, t) && t != idle && t in phase && phase[t] != Exited
      modifies this
      ensures Valid() && nthread == old(nthread) + 1 && ptr == old(ptr)
      ensures forall x :: Queued(runq, intr, x) <==> Queued(old(runq), old(intr), x) || x == t
      ensures phase == if old(phase)[t] == Spawned then old(phase) else old(phase)[t := Runnable]
      ensures
        var k := (ptr + Offset(prio)) % NLIST;
        if prio.Intr? then runq == old(runq) && intr == old(intr) + [t]
        else intr == old(intr) && runq == old(runq)[k := if prio.Io? then [t] + old(runq)[k] else old(runq)[k] + [t]]
    {
      if phase[t] != Spawned {
        phase := phase[t := Runnable];
      }
      nthread := nthread + 1;
      Enqueue(t, prio);
    }

    /** The queue that a priority selects. */
    method Enqueue(t: Tid, prio: Prio)
      requires |runq| == NLIST && ptr < NLIST && Once(runq, intr) && !Queued(runq, intr, t)
      requires forall j | 0 <= j < NLIST :: j in notEmpty <==> runq[j] != []
      modifies this`runq, this`intr, this`notEmpty
      ensures |runq| == NLIST && Once(runq, intr) && |intr| + Total(runq) == |old(intr)| + Total(old(runq)) + 1
      ensures forall j | 0 <= j < NLIST :: j in notEmpty <==> runq[j] != []
      ensures forall x :: Queued(runq, intr, x) <==> Queued(old(runq), old(intr), x) || x == t
      ensures
        var k := (ptr + Offset(prio)) % NLIST;
        if prio.Intr? then runq == old(runq) && intr == old(intr) + [t]
        else intr == old(intr) && runq == old(runq)[k := if prio.Io? then [t] + old(runq)[k] else old(runq)[k] + [t]]
    {
      if prio.Intr? {
        PushIntr(runq, intr, t);
        intr := intr + [t];
      } else if prio.Io? {
        Push(ptr, [t] + runq[ptr], t);
      } else {
        var k := (ptr + Offset(prio)) % NLIST;
        Push(k, runq[k] + [t], t);
      }
    }

    method Push(k: nat, q: seq<Tid>, ghost t: Tid)
      requires |runq| == NLIST && Once(runq, intr) && !Queued(runq, intr, t) && k < NLIST
        && (q == runq[k] + [t] || q == [t] + runq[k])
      requires forall j | 0 <= j < NLIST :: j in notEmpty <==> runq[j] != []
      modifies this`runq, this`notEmpty
      ensures runq == old(runq)[k := q] && Once(runq, intr) && Total(runq) == Total(old(runq)) + 1
      ensures forall j | 0 <= j < NLIST :: j in notEmpty <==> runq[j] != []
      ensures forall x :: Queued(runq, intr, x) <==> Queued(old(runq), intr, x) || x == t
    {
      PushOnce(runq, intr, k, q, t);
      runq := runq[k := q];
      notEmpty := notEmpty + {k};
    }

    /** do_schedule: the running thread goes back on a queue, to sleep or away; then the next one is chosen. */
    method Reschedule(last: Tid, prio: Prio, doSleep: bool) returns (next: Tid)
      requires Valid() && last in phase && !Queued(runq, intr, last)
      requires last != idle ==> phase[last] == Running || phase[last] == Exited
      modifies this
      ensures Valid() && !Queued(runq, intr, next)
      ensures
        var back := last != idle && old(phase)[last] == Running && !doSleep;
        && (next == idle <==> old(nthread) == 0 && !back)
        && (forall x | x != next :: Queued(runq, intr, x) <==> Queued(old(runq), old(intr), x) || (back && x == last))
        && (next != idle ==> Queued(old(runq), old(intr), next) || (back && next == last))
      ensures last != idle && next != last && old(phase)[last] == Running ==>
        last in phase && phase[last] == if doSleep then Sleeping else Runnable
      ensures next != idle ==> next in phase && phase[next] == Running
    {
      if last != idle && phase[last] != Exited {
        if doSleep {
          phase := phase[last := Sleeping];
        } else {
          Add(last, prio);
        }
      }
      next := Choose();
    }

    /** The search for the next queue; the two assertions on the way are that it finds one. */
    method PopNearest() returns (t: Tid)
      requires |runq| == NLIST && ptr < NLIST && Once(runq, intr) && Total(runq) > 0
      requires forall k | 0 <= k < NLIST :: k in notEmpty <==> runq[k] != []
      modifies this`runq, this`ptr, this`notEmpty
      ensures Nearest(old(runq), old(ptr), ptr) && t == old(runq)[ptr][0]
      ensures runq == old(runq)[ptr := old(runq)[ptr][1..]]
      ensures forall k | 0 <= k < NLIST :: k in notEmpty <==> runq[k] != []
    {
      SomeNotEmpty(runq);
      var k := FindBit(notEmpty, ptr);
      if k.None? {
        k := FindBit(notEmpty, 0);
      }
      assert k.Some?;
      var p := k.value;
      t := runq[p][0];
      runq := runq[p := runq[p][1..]];
      if runq[p] == [] {
        notEmpty := notEmpty - {p};
      }
      ptr := p;
    }
  }

  // ----- Serving by priority -----

  ghost predicate Sorted(order: seq<Tid>, prio: map<Tid, Prio>) {
    && (forall t | t in order :: t in prio)
    && forall i, j | 0 <= i < j < |order| :: Rank(prio[order[i]]) <= Rank(prio[order[j]])
  }

  /** One more thread at the current position. */
  method AddFiled(s: Scheduler, t: Tid, prio: map<Tid, Prio>)
    requires s.Valid() && !Queued(s.runq, s.intr, t) && t != s.idle && t in s.phase && s.phase[t] != Exited
    requires t in prio && Filed(s.runq, s.intr, prio, s.ptr)
    modifies s
    ensures s.Valid() && s.nthread == old(s.nthread) + 1 && s.ptr == old(s.ptr)
    ensures Filed(s.runq, s.intr, prio, s.ptr)
    ensures forall x :: Queued(s.runq, s.intr, x) <==> Queued(old(s.runq), old(s.intr), x) || x == t
    ensures forall x | x in old(s.phase) && x != t :: x in s.phase && s.phase[x] == old(s.phase)[x]
  {
    s.Add(t, prio[t]);
    forall k, x | 0 <= k < NLIST && x in s.runq[k] ensures FiledAt(prio, s.ptr, k, x) {
      assert x in old(s.runq)[k] ==> FiledAt(prio, s.ptr, k, x);
    }
  }

  /** The next thread has the best priority of those that wait. */
  method ChooseFiled(s: Scheduler, ghost prio: map<Tid, Prio>, ghost base: nat) returns (t: Tid)
    requires s.Valid() && s.nthread > 0 && Filed(s.runq, s.intr, prio, base) && Swept(s.runq, base, s.ptr)
    modifies s
    ensures s.Valid() && s.nthread == old(s.nthread) - 1 && Filed(s.runq, s.intr, prio, base)
      && Swept(s.runq, base, s.ptr)
    ensures Queued(old(s.runq), old(s.intr), t) && t in prio
    ensures forall x :: Queued(s.runq, s.intr, x) <==> Queued(old(s.runq), old(s.intr), x) && x != t
    ensures forall x | Queued(s.runq, s.intr, x) :: x in prio && Rank(prio[t]) <= Rank(prio[x])
  {
    ghost var runq, intr, ptr := s.runq, s.intr, s.ptr;
    t := s.Choose();
    if intr != [] {
      assert forall x | x in s.intr :: x in intr;
      forall x | Queued(s.runq, s.intr, x) ensures x in prio {
        if x !in s.intr {
          var k :| 0 <= k < |runq| && x in runq[k];
          assert FiledAt(prio, base, k, x);
        }
      }
    } else {
      var k := s.ptr;
      assert runq[k] == [t] + s.runq[k];
      forall x | Queued(runq, [], x) ensures x in prio && t in prio && Rank(prio[t]) <= Rank(prio[x])
        && Swept(runq, base, k)
      {
        BestFirst(runq, intr, prio, base, ptr, k, x);
      }
      assert t in runq[k] && Queued(runq, [], t);
      forall j, x | 0 <= j < NLIST && x in s.runq[j] ensures FiledAt(prio, base, j, x) { assert x in runq[j]; }
    }
  }

  method AddAll(s: Scheduler, ids: seq<Tid>, prio: map<Tid, Prio>)
    requires s.Valid() && s.nthread == 0 && NoDup(ids)
    requires forall t | t in ids :: t in prio && t != s.idle && t in s.phase && s.phase[t] != Exited
    modifies s
    ensures s.Valid() && s.nthread == |ids| && Filed(s.runq, s.intr, prio, s.ptr)
    ensures forall t :: Queued(s.runq, s.intr, t) <==> t in ids
  {
    NobodyQueued(s);
    for i := 0 to |ids|
      invariant s.Valid() && s.nthread == i && Filed(s.runq, s.intr, prio, s.ptr)
      invariant forall t :: Queued(s.runq, s.intr, t) <==> t in ids[..i]
      invariant forall j | i <= j < |ids| :: ids[j] in s.phase && s.phase[ids[j]] != Exited
    {
      assert ids[i] in ids && ids[i] !in ids[..i];
      AddFiled(s, ids[i], prio);
      assert ids[..i + 1] == ids[..i] + [ids[i]];
    }
    assert ids[..|ids|] == ids;
  }

  /** The threads are those served and those that wait, and those served were better. */
  ghost predicate Served(order: seq<Tid>, runq: seq<seq<Tid>>, intr: seq<Tid>, prio: map<Tid, Prio>, ids: seq<Tid>) {
    && Sorted(order, prio) && NoDup(order) && (forall t :: t in ids <==> t in order || Queued(runq, intr, t))
    && forall t, x | t in order && Queued(runq, intr, x) :: t != x && x in prio && Rank(prio[t]) <= Rank(prio[x])
  }

  lemma {:induction false} ServedNext(order: seq<Tid>, runq: seq<seq<Tid>>, intr: seq<Tid>, runq': seq<seq<Tid>>,
    intr': seq<Tid>, prio: map<Tid, Prio>, ids: seq<Tid>, t: Tid)
    requires Served(order, runq, intr, prio, ids) && Queued(runq, intr, t) && t in prio
    requires forall x :: Queued(runq', intr', x) <==> Queued(runq, intr, x) && x != t
    requires forall x | Queued(runq', intr', x) :: x in prio && Rank(prio[t]) <= Rank(prio[x])
    ensures Served(order + [t], runq', intr', prio, ids)
  {
    assert forall i | 0 <= i < |order| :: order[i] in order;
  }

  /**
   Threads that become ready at the same time are served by priority: those of interrupts first, then
   Io, Lock, Kernel, Signal, Input and Normal, whatever the order in which they became ready.
   */
  method ServeInOrder(s: Scheduler, ids: seq<Tid>, prio: map<Tid, Prio>) returns (order: seq<Tid>)
    requires s.Valid() && s.nthread == 0 && NoDup(ids)
    requires forall t | t in ids :: t in prio && t != s.idle && t in s.phase && s.phase[t] != Exited
    modifies s
    ensures Sorted(order, prio) && NoDup(order) && (forall t :: t in order <==> t in ids)
  {
    AddAll(s, ids, prio);
    ghost var base := s.ptr;
    order := [];
    while s.nthread > 0
      invariant s.Valid() && Filed(s.runq, s.intr, prio, base) && Swept(s.runq, base, s.ptr)
      invariant Served(order, s.runq, s.intr, prio, ids)
      decreases s.nthread
    {
      ghost var runq, intr := s.runq, s.intr;
      var t := ChooseFiled(s, prio, base);
      ServedNext(order, runq, intr, s.runq, s.intr, prio, ids, t);
      order := order + [t];
    }
    NobodyQueued(s);
  }

  lemma {:induction false} NobodyQueued(s: Scheduler)
    requires s.Valid() && s.nthread == 0
    ensures s.intr == [] && (forall k | 0 <= k < |s.runq| :: s.runq[k] == []) && forall t :: !Queued(s.runq, s.intr, t)
  {
    forall k | 0 <= k < |s.runq| ensures s.runq[k] == [] { TotalAtLeast(s.runq, k); }
  }

  lemma {:induction false} TotalAtLeast(qs: seq<seq<Tid>>, k: nat)
    requires k < |qs|
    ensures Total(qs) >= |qs[k]|
  {
    if k < |qs| - 1 { TotalAtLeast(qs[..|qs| - 1], k); }
  }
}
