/** Buffers of the block cache (block/cache.c) among threads. */
module BlockSharing {
  // Any number of threads read, write, fill and reclaim buffers; every block under a lock and every
  // device request is a step, in any order. A buffer's lock is held by whoever is at a place that
  // needs it.

  import opened Lists

  type Tid = nat
  type Bid = nat
  type Data = nat

  /** Where a thread is with block p, for a write or not; b is its buffer. */
  datatype Pc =
    | Idle
    | Look(p: nat, w: bool)             // about to look the block up
    | Insert(p: nat, w: bool, b: Bid)   // has a new buffer, about to look again and put it in the table
    | Fill(p: nat, w: bool, b: Bid)     // about to read the device
    | Lock(p: nat, w: bool, b: Bid)     // has a reference, about to take the buffer's lock
    | Use(p: nat, w: bool, b: Bid)      // has the lock
    | Wrote(p: nat, b: Bid)             // has changed the buffer, about to write the device
    | Unref(p: nat, b: Bid)             // about to give its reference back

  datatype Buf = Buf(no: nat, data: Data, ok: bool, ref: nat)

  type Bufs = map<Bid, Buf>

  datatype State = State(pc: map<Tid, Pc>, bufs: Bufs, table: map<nat, Bid>, lru: seq<Bid>, blocks: map<nat, Data>)

  /** Go carries what the step meets: a new buffer, what is in it or goes into it, and the device's answer. */
  datatype Step = Start(t: Tid, p: nat, w: bool) | Go(t: Tid, b: Bid, data: Data, ok: bool) | Reclaim

  predicate HasBuf(c: Pc) { !c.Idle? && !c.Look? }

  predicate Writes(c: Pc) { c.Insert? || c.Fill? || c.Wrote? || (c.Use? && c.w) }

  predicate Holds(c: Pc) { Writes(c) || c.Use? }

  predicate On(c: Pc, b: Bid) { HasBuf(c) && c.b == b }

  /** The lock can be had: for writing if nobody holds it, for reading if no writer does. */
  ghost predicate Lockable(pc: map<Tid, Pc>, b: Bid, w: bool) {
    forall u | u in pc && On(pc[u], b) :: !Writes(pc[u]) && (w ==> !Holds(pc[u]))
  }

  ghost predicate Enabled(st: State, s: Step) {
    match s
    case Start(t, _, _) => t in st.pc && st.pc[t] == Idle
    case Go(t, b, _, _) =>
      && t in st.pc && st.pc[t] != Idle && (st.pc[t].Look? ==> b !in st.bufs)
      && (st.pc[t].Lock? ==> Lockable(st.pc, st.pc[t].b, st.pc[t].w))
    case Reclaim => st.lru != []
  }

  function Put(st: State, t: Tid, c: Pc): State { st.(pc := st.pc[t := c]) }

  /** blk_cbuf_ref */
  function Ref(st: State, b: Bid): State
    requires b in st.bufs
  {
    var x := st.bufs[b];
    st.(bufs := st.bufs[b := x.(ref := x.ref + 1)], lru := if x.ref == 0 then Without(st.lru, b) else st.lru)
  }

  function DoLook(st: State, t: Tid, p: nat, w: bool, b: Bid, data: Data, ok: bool): State
    requires p in st.table ==> st.table[p] in st.bufs
  {
    if p in st.table then Put(Ref(st, st.table[p]), t, Lock(p, w, st.table[p]))
    else Put(st, t, Insert(p, w, b)).(bufs := st.bufs[b := Buf(p, data, ok, 1)])
  }

  function DoInsert(st: State, t: Tid, p: nat, w: bool, b: Bid): State
    requires p in st.table ==> st.table[p] in st.bufs
  {
    if p in st.table then
      var st' := Put(Ref(st, st.table[p]), t, Lock(p, w, st.table[p]));
      st'.(bufs := st'.bufs - {b})
    else Put(st, t, Fill(p, w, b)).(table := st.table[p := b])
  }

  function SetBuf(st: State, b: Bid, data: Data, ok: bool): State
    requires b in st.bufs
  {
    st.(bufs := st.bufs[b := st.bufs[b].(data := data, ok := ok)])
  }

  function DoFill(st: State, t: Tid, p: nat, w: bool, b: Bid, data: Data, ok: bool): State
    requires b in st.bufs
  {
    if ok && p in st.blocks then Put(SetBuf(st, b, st.blocks[p], true), t, Lock(p, w, b))
    else Put(SetBuf(st, b, data, false), t, Unref(p, b))
  }

  /** A read returns what is in the buffer; a write of part of a bad one fails. */
  function DoUse(st: State, t: Tid, p: nat, w: bool, b: Bid, data: Data, whole: bool): State
    requires b in st.bufs
  {
    if w && (st.bufs[b].ok || whole) then Put(SetBuf(st, b, data, st.bufs[b].ok), t, Wrote(p, b))
      else Put(st, t, Unref(p, b))
  }

  /** blk_write: a failed one may leave anything in the block. */
  function DoWrote(st: State, t: Tid, p: nat, b: Bid, data: Data, ok: bool): State
    requires b in st.bufs
  {
    var good := ok && p in st.blocks;
    var left := if good then st.bufs[b].data else data;
    Put(SetBuf(st, b, st.bufs[b].data, good), t, Unref(p, b))
      .(blocks := if p in st.blocks then st.blocks[p := left] else st.blocks)
  }

  /** blk_cbuf_unref */
  function DoUnref(st: State, t: Tid, b: Bid): State
    requires b in st.bufs && st.bufs[b].ref > 0
  {
    var x := st.bufs[b];
    Put(st, t, Idle).(bufs := st.bufs[b := x.(ref := x.ref - 1)], lru := if x.ref == 1 then st.lru + [b] else st.lru)
  }

  function DoReclaim(st: State): State
    requires st.lru != [] && st.lru[0] in st.bufs
  {
    var b := st.lru[0];
    State(st.pc, st.bufs - {b}, st.table - {st.bufs[b].no}, st.lru[1..], st.blocks)
  }

  // ----- Invariant -----

  ghost function Users(pc: map<Tid, Pc>, b: Bid): set<Tid> { set t | t in pc && On(pc[t], b) }

  predicate Cached(st: State, p: nat, b: Bid) { p in st.table && st.table[p] == b }

  /** A thread's buffer exists and is the one of its block, or is not in the table yet and its own. */
  ghost predicate ThreadOk(st: State, t: Tid)
    requires t in st.pc
  {
    var c := st.pc[t];
    HasBuf(c) ==>
      c.b in st.bufs && st.bufs[c.b].no == c.p && (if c.Insert? then Users(st.pc, c.b) == {t} else Cached(st, c.p, c.b))
  }

  ghost predicate BufOk(st: State, b: Bid)
    requires b in st.bufs
  {
    && st.bufs[b].ref == |Users(st.pc, b)| && (b in st.lru <==> st.bufs[b].ref == 0)
    && (Cached(st, st.bufs[b].no, b) <==> !exists t :: t in st.pc && st.pc[t].Insert? && st.pc[t].b == b)
  }

  /** A good buffer holds what the device holds, unless it is being filled or written. */
  ghost predicate TableOk(st: State, p: nat)
    requires p in st.table
  {
    var b := st.table[p];
    && b in st.bufs && st.bufs[b].no == p
    && (st.bufs[b].ok && Still(st.pc, b) ==> p in st.blocks && st.bufs[b].data == st.blocks[p])
  }

  ghost predicate Still(pc: map<Tid, Pc>, b: Bid) {
    forall t | t in pc && On(pc[t], b) :: !pc[t].Fill? && !pc[t].Wrote?
  }

  /** Nobody holds a buffer's lock beside a writer. */
  ghost predicate Alone(pc: map<Tid, Pc>, t: Tid, u: Tid)
    requires t in pc && u in pc
  {
    t != u && HasBuf(pc[t]) && On(pc[u], pc[t].b) && Writes(pc[t]) ==> !Holds(pc[u])
  }

  ghost predicate Inv(st: State) {
    && (forall t {:trigger ThreadOk(st, t)} | t in st.pc :: ThreadOk(st, t))
    && (forall b {:trigger BufOk(st, b)} | b in st.bufs :: BufOk(st, b))
    && (forall p {:trigger TableOk(st, p)} | p in st.table :: TableOk(st, p))
    && (forall t, u {:trigger Alone(st.pc, t, u)} | t in st.pc && u in st.pc :: Alone(st.pc, t, u))
    && NoDup(st.lru) && forall b | b in st.lru :: b in st.bufs
  }

  ghost predicate Usable(st: State, s: Step) {
    && Enabled(st, s)
    && match s
       case Start(_, _, _) => true
       case Go(t, _, _, _) =>
         && (HasBuf(st.pc[t]) ==> st.pc[t].b in st.bufs) && (st.pc[t].Unref? ==> st.bufs[st.pc[t].b].ref > 0)
         && (st.pc[t].Look? || st.pc[t].Insert? ==> (st.pc[t].p in st.table ==> st.table[st.pc[t].p] in st.bufs))
       case Reclaim => st.lru[0] in st.bufs
  }

  ghost function DoGo(st: State, t: Tid, b: Bid, data: Data, ok: bool): State
    requires Usable(st, Go(t, b, data, ok))
  {
    match st.pc[t]
    case Look(p, w) => DoLook(st, t, p, w, b, data, ok)
    case Insert(p, w, x) => DoInsert(st, t, p, w, x)
    case Fill(p, w, x) => DoFill(st, t, p, w, x, data, ok)
    case Lock(p, w, x) => Put(st, t, Use(p, w, x))
    case Use(p, w, x) => DoUse(st, t, p, w, x, data, ok)
    case Wrote(p, x) => DoWrote(st, t, p, x, data, ok)
    case Unref(_, x) => DoUnref(st, t, x)
  }

  ghost function Next(st: State, s: Step): State
    requires Usable(st, s)
  {
    match s
    case Start(t, p, w) => Put(st, t, Look(p, w))
    case Go(t, b, data, ok) => DoGo(st, t, b, data, ok)
    case Reclaim => DoReclaim(st)
  }

  // ----- Every step keeps it -----

  /** No thread is at a buffer that is gone, and no reference is given back twice. */
  lemma {:induction false} StepUsable(st: State, s: Step)
    requires Inv(st) && Enabled(st, s)
    ensures Usable(st, s)
  {
    if s.Go? {
      var c := st.pc[s.t];
      assert ThreadOk(st, s.t);
      if HasBuf(c) {
        assert BufOk(st, c.b);
        assert s.t in Users(st.pc, c.b);
      }
      if (c.Look? || c.Insert?) && c.p in st.table { assert TableOk(st, c.p); }
    } else if s.Reclaim? {
      assert st.lru[0] in st.lru;
    }
  }

  lemma {:induction false} UsersMove(pc: map<Tid, Pc>, t: Tid, c: Pc, b: Bid)
    requires t in pc
    ensures |Users(pc[t := c], b)| == |Users(pc, b)| - One(On(pc[t], b)) + One(On(c, b))
    ensures On(pc[t], b) == On(c, b) ==> Users(pc[t := c], b) == Users(pc, b)
  {
    Swap(Users(pc, b), Users(pc[t := c], b), t);
  }

  /** One thread moves on with its buffer; only what is in the buffer changes, and perhaps its block. */
  ghost predicate Stays(st: State, st': State, t: Tid, b: Bid) {
    && t in st.pc && t in st'.pc && st'.pc == st.pc[t := st'.pc[t]]
    && On(st.pc[t], b) && On(st'.pc[t], b) && st'.pc[t].p == st.pc[t].p && !st.pc[t].Insert? && !st'.pc[t].Insert?
    && b in st.bufs && b in st'.bufs && st'.bufs == st.bufs[b := st'.bufs[b]]
    && st'.bufs[b].no == st.bufs[b].no && st'.bufs[b].ref == st.bufs[b].ref
    && st'.table == st.table && st'.lru == st.lru
    && (forall p | p != st.pc[t].p ::
      (p in st'.blocks <==> p in st.blocks) && (p in st.blocks ==> st'.blocks[p] == st.blocks[p]))
  }

  /** The lock the thread has now is one it may have. */
  ghost predicate MayHold(pc: map<Tid, Pc>, t: Tid, c: Pc, b: Bid) {
    forall u | u in pc && u != t && On(pc[u], b) :: (Writes(c) ==> !Holds(pc[u])) && (Holds(c) ==> !Writes(pc[u]))
  }

  lemma {:induction false} StaysThreads(st: State, st': State, t: Tid, b: Bid)
    requires Inv(st) && Stays(st, st', t, b)
    ensures forall u | u in st'.pc :: ThreadOk(st', u)
    ensures forall x | x in st'.bufs :: BufOk(st', x)
  {
    forall x ensures Users(st'.pc, x) == Users(st.pc, x) { UsersMove(st.pc, t, st'.pc[t], x); }
    assert ThreadOk(st, t);
    forall u | u in st'.pc ensures ThreadOk(st', u) { assert ThreadOk(st, u); }
    forall x | x in st'.bufs ensures BufOk(st', x) {
      assert BufOk(st, x);
      forall u | u in st.pc ensures st'.pc[u].Insert? <==> st.pc[u].Insert? {}
    }
  }

  lemma {:induction false} StillElsewhere(pc: map<Tid, Pc>, t: Tid, c: Pc, b: Bid)
    requires t in pc && (On(pc[t], b) ==> !pc[t].Fill? && !pc[t].Wrote?) && (On(c, b) ==> !c.Fill? && !c.Wrote?)
    ensures Still(pc[t := c], b) <==> Still(pc, b)
  {
    var pc' := pc[t := c];
    if Still(pc, b) { forall u | u in pc' && On(pc'[u], b) ensures !pc'[u].Fill? && !pc'[u].Wrote? {} }
    if Still(pc', b) {
      forall u | u in pc && On(pc[u], b) ensures !pc[u].Fill? && !pc[u].Wrote? { assert u != t ==> pc'[u] == pc[u]; }
    }
  }

  lemma {:induction false} StaysInv(st: State, st': State, t: Tid, b: Bid)
    requires Inv(st) && Stays(st, st', t, b) && MayHold(st.pc, t, st'.pc[t], b)
    requires Cached(st, st.pc[t].p, b) ==> TableOk(st', st.pc[t].p)
    ensures Inv(st')
  {
    StaysThreads(st, st', t, b);
    assert ThreadOk(st, t);
    forall p | p in st'.table ensures TableOk(st', p) {
      assert TableOk(st, p);
      if p != st.pc[t].p { StillElsewhere(st.pc, t, st'.pc[t], st.table[p]); }
    }
    forall u, v | u in st'.pc && v in st'.pc ensures Alone(st'.pc, u, v) { assert Alone(st.pc, u, v); }
  }

  /** A thread that may write need not share, and one that gives a lock up is in nobody's way. */
  lemma {:induction false} HoldsStill(st: State, t: Tid, c: Pc)
    requires Inv(st) && t in st.pc && HasBuf(st.pc[t])
    requires (Writes(c) ==> Writes(st.pc[t])) && (Holds(c) ==> Holds(st.pc[t]))
    ensures MayHold(st.pc, t, c, st.pc[t].b)
  {
    forall u | u in st.pc && u != t && On(st.pc[u], st.pc[t].b)
      ensures (Writes(c) ==> !Holds(st.pc[u])) && (Holds(c) ==> !Writes(st.pc[u]))
    {
      assert Alone(st.pc, t, u) && Alone(st.pc, u, t);
    }
  }

  lemma {:induction false} LockInv(st: State, s: Step)
    requires Inv(st) && Usable(st, s) && s.Go? && st.pc[s.t].Lock?
    ensures Inv(Next(st, s))
  {
    var t, st' := s.t, Next(st, s);
    assert ThreadOk(st, t) && TableOk(st, st.pc[t].p);
    StillElsewhere(st.pc, t, st'.pc[t], st.pc[t].b);
    StaysInv(st, st', t, st.pc[t].b);
  }

  lemma {:induction false} FillInv(st: State, s: Step)
    requires Inv(st) && Usable(st, s) && s.Go? && st.pc[s.t].Fill?
    ensures Inv(Next(st, s))
  {
    var t, st' := s.t, Next(st, s);
    assert ThreadOk(st, t) && TableOk(st, st.pc[t].p);
    HoldsStill(st, t, st'.pc[t]);
    StaysInv(st, st', t, st.pc[t].b);
  }

  lemma {:induction false} UseInv(st: State, s: Step)
    requires Inv(st) && Usable(st, s) && s.Go? && st.pc[s.t].Use?
    ensures Inv(Next(st, s))
  {
    var t, st' := s.t, Next(st, s);
    assert ThreadOk(st, t) && TableOk(st, st.pc[t].p);
    HoldsStill(st, t, st'.pc[t]);
    if st'.pc[t].Unref? {
      StillElsewhere(st.pc, t, st'.pc[t], st.pc[t].b);
      assert st'.bufs[st.pc[t].b] == st.bufs[st.pc[t].b];
    } else {
      assert On(st'.pc[t], st.pc[t].b) && st'.pc[t].Wrote?;
    }
    StaysInv(st, st', t, st.pc[t].b);
  }

  lemma {:induction false} WroteInv(st: State, s: Step)
    requires Inv(st) && Usable(st, s) && s.Go? && st.pc[s.t].Wrote?
    ensures Inv(Next(st, s))
  {
    var t, st' := s.t, Next(st, s);
    assert ThreadOk(st, t) && TableOk(st, st.pc[t].p);
    HoldsStill(st, t, st'.pc[t]);
    StaysInv(st, st', t, st.pc[t].b);
  }

  // ----- Coming and going -----

  lemma {:induction false} StartInv(st: State, s: Step)
    requires Inv(st) && Usable(st, s) && s.Start?
    ensures Inv(Next(st, s))
  {
    var t, st' := s.t, Next(st, s);
    forall x ensures Users(st'.pc, x) == Users(st.pc, x) { UsersMove(st.pc, t, st'.pc[t], x); }
    forall u | u in st'.pc ensures ThreadOk(st', u) { assert ThreadOk(st, u); }
    forall x | x in st'.bufs ensures BufOk(st', x) { OwnersKept(st, st', t, x); }
    forall p | p in st'.table ensures TableOk(st', p) {
      assert TableOk(st, p);
      StillElsewhere(st.pc, t, st'.pc[t], st.table[p]);
    }
    forall u, v | u in st'.pc && v in st'.pc ensures Alone(st'.pc, u, v) { assert Alone(st.pc, u, v); }
  }

  ghost predicate Owner(pc: map<Tid, Pc>, t: Tid, b: Bid) { t in pc && pc[t].Insert? && pc[t].b == b }

  lemma {:induction false} OwnersKept(st: State, st': State, t: Tid, x: Bid)
    requires x in st.bufs && BufOk(st, x) && x in st'.bufs && st'.bufs[x].no == st.bufs[x].no
    requires t in st.pc && t in st'.pc && st'.pc == st.pc[t := st'.pc[t]]
    requires !Owner(st.pc, t, x) && !Owner(st'.pc, t, x)
    requires Cached(st', st.bufs[x].no, x) <==> Cached(st, st.bufs[x].no, x)
    requires st'.bufs[x].ref == |Users(st'.pc, x)| && (x in st'.lru <==> st'.bufs[x].ref == 0)
    ensures BufOk(st', x)
  {
    if exists u :: u in st.pc && st.pc[u].Insert? && st.pc[u].b == x {
      var u :| u in st.pc && st.pc[u].Insert? && st.pc[u].b == x;
      assert st'.pc[u].Insert? && st'.pc[u].b == x;
    }
    if exists u :: u in st'.pc && st'.pc[u].Insert? && st'.pc[u].b == x {
      var u :| u in st'.pc && st'.pc[u].Insert? && st'.pc[u].b == x;
      assert st.pc[u].Insert? && st.pc[u].b == x;
    }
  }

  lemma {:induction false} NotOwned(st: State, p: nat, u: Tid)
    requires Inv(st) && p in st.table
    ensures !Owner(st.pc, u, st.table[p])
  {
    assert TableOk(st, p) && BufOk(st, st.table[p]);
  }

  /** A reference to a cached buffer for a thread that had none. */
  lemma {:induction false} JoinInv(st: State, t: Tid, p: nat, w: bool)
    requires Inv(st) && t in st.pc && !HasBuf(st.pc[t]) && p in st.table && st.table[p] in st.bufs
    ensures Inv(Put(Ref(st, st.table[p]), t, Lock(p, w, st.table[p])))
  {
    var h := st.table[p];
    var c, st' := Lock(p, w, h), Put(Ref(st, h), t, Lock(p, w, h));
    assert TableOk(st, p);
    WithoutElems(st.lru, h);
    forall u | u in st'.pc ensures ThreadOk(st', u) {
      assert ThreadOk(st, u);
      if u != t && st.pc[u].Insert? {
        NotOwned(st, p, u);
        UsersMove(st.pc, t, c, st.pc[u].b);
      }
    }
    forall x | x in st'.bufs ensures BufOk(st', x) {
      assert BufOk(st, x);
      UsersMove(st.pc, t, c, x);
      OwnersKept(st, st', t, x);
    }
    forall k | k in st'.table ensures TableOk(st', k) {
      assert TableOk(st, k);
      StillElsewhere(st.pc, t, c, st.table[k]);
    }
    forall u, v | u in st'.pc && v in st'.pc ensures Alone(st'.pc, u, v) { assert Alone(st.pc, u, v); }
  }

  /** A new buffer, not in the table yet. */
  lemma {:induction false} NewInv(st: State, t: Tid, p: nat, w: bool, b: Bid, data: Data, ok: bool)
    requires Inv(st) && t in st.pc && !HasBuf(st.pc[t]) && p !in st.table && b !in st.bufs
    ensures Inv(DoLook(st, t, p, w, b, data, ok))
  {
    var c, st' := Insert(p, w, b), DoLook(st, t, p, w, b, data, ok);
    forall u | u in st.pc ensures !On(st.pc[u], b) { assert ThreadOk(st, u); }
    assert Users(st.pc, b) == {};
    assert Users(st'.pc, b) == {t};
    forall u | u in st'.pc ensures ThreadOk(st', u) {
      assert ThreadOk(st, u);
      if u != t && st.pc[u].Insert? { UsersMove(st.pc, t, c, st.pc[u].b); }
    }
    forall x | x in st'.bufs ensures BufOk(st', x) {
      if x != b {
        assert BufOk(st, x);
        UsersMove(st.pc, t, c, x);
        OwnersKept(st, st', t, x);
      } else {
        assert st'.pc[t].Insert? && st'.pc[t].b == b;
        assert b !in st.lru;
      }
    }
    forall k | k in st'.table ensures TableOk(st', k) {
      assert TableOk(st, k);
      StillElsewhere(st.pc, t, c, st.table[k]);
    }
    forall u, v | u in st'.pc && v in st'.pc ensures Alone(st'.pc, u, v) { assert Alone(st.pc, u, v); }
  }

  lemma {:induction false} LookInv(st: State, s: Step)
    requires Inv(st) && Usable(st, s) && s.Go? && st.pc[s.t].Look?
    ensures Inv(Next(st, s))
  {
    var c := st.pc[s.t];
    if c.p in st.table { JoinInv(st, s.t, c.p, c.w); } else { NewInv(st, s.t, c.p, c.w, s.b, s.data, s.ok); }
  }

  /** Somebody else was faster: the new buffer is thrown away again. */
  lemma {:induction false} DiscardInv(st: State, t: Tid)
    requires Inv(st) && t in st.pc && st.pc[t].Insert?
    ensures Inv(Put(st, t, Look(st.pc[t].p, st.pc[t].w)).(bufs := st.bufs - {st.pc[t].b}))
  {
    var c, b := st.pc[t], st.pc[t].b;
    var d := Look(c.p, c.w);
    var st' := Put(st, t, d).(bufs := st.bufs - {b});
    assert ThreadOk(st, t) && BufOk(st, b);
    assert t in Users(st.pc, b);
    forall u | u in st'.pc ensures ThreadOk(st', u) {
      assert ThreadOk(st, u);
      if u != t && HasBuf(st.pc[u]) {
        assert u !in Users(st.pc, b);
        UsersMove(st.pc, t, d, st.pc[u].b);
      }
    }
    forall x | x in st'.bufs ensures BufOk(st', x) {
      assert BufOk(st, x);
      UsersMove(st.pc, t, d, x);
      OwnersKept(st, st', t, x);
    }
    forall k | k in st'.table ensures TableOk(st', k) {
      assert TableOk(st, k);
      NotOwned(st, k, t);
      assert st.table[k] != b;
      StillElsewhere(st.pc, t, d, st.table[k]);
    }
    forall u, v | u in st'.pc && v in st'.pc ensures Alone(st'.pc, u, v) { assert Alone(st.pc, u, v); }
  }

  /** The new buffer is entered in the table, locked and about to be filled. */
  lemma {:induction false} EnterInv(st: State, t: Tid)
    requires Inv(st) && t in st.pc && st.pc[t].Insert? && st.pc[t].p !in st.table
    ensures var c := st.pc[t]; Inv(DoInsert(st, t, c.p, c.w, c.b))
  {
    var c, b := st.pc[t], st.pc[t].b;
    var d, st' := Fill(c.p, c.w, b), DoInsert(st, t, c.p, c.w, b);
    assert ThreadOk(st, t) && BufOk(st, b);
    forall x ensures Users(st'.pc, x) == Users(st.pc, x) { UsersMove(st.pc, t, d, x); }
    forall u | u in st'.pc ensures ThreadOk(st', u) { assert ThreadOk(st, u); }
    forall x | x in st'.bufs ensures BufOk(st', x) {
      assert BufOk(st, x);
      if x != b {
        OwnersKept(st, st', t, x);
      } else {
        forall u | u in st'.pc
          ensures !(st'.pc[u].Insert? && st'.pc[u].b == b)
        {
          assert u != t ==> u !in Users(st.pc, b);
        }
      }
    }
    forall k | k in st'.table ensures TableOk(st', k) {
      if k != c.p {
        assert TableOk(st, k);
        NotOwned(st, k, t);
        StillElsewhere(st.pc, t, d, st.table[k]);
      } else {
        assert On(st'.pc[t], b) && st'.pc[t].Fill?;
      }
    }
    forall u, v | u in st'.pc && v in st'.pc ensures Alone(st'.pc, u, v) { assert Alone(st.pc, u, v); }
  }

  lemma {:induction false} InsertInv(st: State, s: Step)
    requires Inv(st) && Usable(st, s) && s.Go? && st.pc[s.t].Insert?
    ensures Inv(Next(st, s))
  {
    var t, c := s.t, st.pc[s.t];
    if c.p in st.table {
      DiscardInv(st, t);
      var st1 := Put(st, t, Look(c.p, c.w)).(bufs := st.bufs - {c.b});
      assert TableOk(st, c.p);
      NotOwned(st, c.p, t);
      JoinInv(st1, t, c.p, c.w);
      var h := st.table[c.p];
      assert Put(Ref(st1, h), t, Lock(c.p, c.w, h)).pc == Next(st, s).pc;
      assert Put(Ref(st1, h), t, Lock(c.p, c.w, h)) == Next(st, s);
    } else {
      EnterInv(st, t);
    }
  }

  lemma {:induction false} UnrefInv(st: State, s: Step)
    requires Inv(st) && Usable(st, s) && s.Go? && st.pc[s.t].Unref?
    ensures Inv(Next(st, s))
  {
    var t, b, st' := s.t, st.pc[s.t].b, Next(st, s);
    assert ThreadOk(st, t) && BufOk(st, b);
    forall u | u in st'.pc ensures ThreadOk(st', u) {
      assert ThreadOk(st, u);
      if u != t && st.pc[u].Insert? {
        NotOwned(st, st.pc[t].p, u);
        UsersMove(st.pc, t, Idle, st.pc[u].b);
      }
    }
    forall x | x in st'.bufs ensures BufOk(st', x) {
      assert BufOk(st, x);
      UsersMove(st.pc, t, Idle, x);
      OwnersKept(st, st', t, x);
    }
    forall k | k in st'.table ensures TableOk(st', k) {
      assert TableOk(st, k);
      StillElsewhere(st.pc, t, Idle, st.table[k]);
    }
    forall u, v | u in st'.pc && v in st'.pc ensures Alone(st'.pc, u, v) { assert Alone(st.pc, u, v); }
  }

  lemma {:induction false} ReclaimInv(st: State)
    requires Inv(st) && Usable(st, Reclaim)
    ensures Users(st.pc, st.lru[0]) == {} && Inv(DoReclaim(st))
  {
    var b, st' := st.lru[0], DoReclaim(st);
    assert b in st.lru && BufOk(st, b);
    assert st.lru == [b] + st.lru[1..];
    forall t | t in st.pc ensures !(st.pc[t].Insert? && st.pc[t].b == b) { assert t !in Users(st.pc, b); }
    forall u | u in st'.pc ensures ThreadOk(st', u) {
      assert ThreadOk(st, u);
      assert u !in Users(st.pc, b);
    }
    forall x | x in st'.bufs ensures BufOk(st', x) { assert BufOk(st, x); }
    forall k | k in st'.table ensures TableOk(st', k) { assert TableOk(st, k); }
    forall u, v | u in st'.pc && v in st'.pc ensures Alone(st'.pc, u, v) { assert Alone(st.pc, u, v); }
  }

  lemma {:induction false} InvNext(st: State, s: Step)
    requires Inv(st) && Enabled(st, s)
    ensures Usable(st, s) && Inv(Next(st, s))
  {
    StepUsable(st, s);
    match s
    case Start(_, _, _) => StartInv(st, s);
    case Reclaim => ReclaimInv(st);
    case Go(t, _, _, _) =>
      match st.pc[t]
      case Look(_, _) => LookInv(st, s);
      case Insert(_, _, _) => InsertInv(st, s);
      case Fill(_, _, _) => FillInv(st, s);
      case Lock(_, _, _) => LockInv(st, s);
      case Use(_, _, _) => UseInv(st, s);
      case Wrote(_, _) => WroteInv(st, s);
      case Unref(_, _) => UnrefInv(st, s);
  }

  // ----- Whole runs -----

  ghost predicate Init(st: State) {
    st.bufs == map[] && st.table == map[] && st.lru == [] && forall t | t in st.pc :: st.pc[t] == Idle
  }

  ghost predicate IsRun(run: seq<State>, steps: seq<Step>) {
    && |run| == |steps| + 1 && Init(run[0])
    && forall i | 0 <= i < |steps| :: Taken(run[i], steps[i], run[i + 1])
  }

  ghost predicate Taken(st: State, s: Step, st': State) { Enabled(st, s) && Usable(st, s) && st' == Next(st, s) }

  lemma {:induction false} RunInv(run: seq<State>, steps: seq<Step>, i: nat)
    requires IsRun(run, steps) && i < |run|
    ensures Inv(run[i])
  {
    if i > 0 {
      RunInv(run, steps, i - 1);
      assert Taken(run[i - 1], steps[i - 1], run[i]);
      InvNext(run[i - 1], steps[i - 1]);
    }
  }

  /** In every interleaving a good buffer that is not being filled or written holds what the device holds. */
  lemma {:induction false} GoodBufferFaithful(run: seq<State>, steps: seq<Step>, i: nat, p: nat)
    requires IsRun(run, steps) && i < |run| && p in run[i].table
    ensures
      var st, b := run[i], run[i].table[p];
      b in st.bufs && (st.bufs[b].ok && Still(st.pc, b) ==> p in st.blocks && st.bufs[b].data == st.blocks[p])
  {
    RunInv(run, steps, i);
    assert TableOk(run[i], p);
  }

  /** A reader that finds its buffer good reads the block as it is on the device. */
  lemma {:induction false} ReaderSees(run: seq<State>, steps: seq<Step>, i: nat, t: Tid)
    requires IsRun(run, steps) && i < |run| && t in run[i].pc && run[i].pc[t].Use? && !run[i].pc[t].w
    ensures
      var st, c := run[i], run[i].pc[t];
      c.b in st.bufs && (st.bufs[c.b].ok ==> c.p in st.blocks && st.bufs[c.b].data == st.blocks[c.p])
  {
    RunInv(run, steps, i);
    var st, c := run[i], run[i].pc[t];
    assert ThreadOk(st, t) && TableOk(st, c.p);
    forall u | u in st.pc && On(st.pc[u], c.b)
      ensures !st.pc[u].Fill? && !st.pc[u].Wrote?
    {
      assert Alone(st.pc, u, t);
    }
  }

  /** Nobody's buffer is freed under them, and no block has two buffers in use. */
  lemma {:induction false} BuffersSafe(run: seq<State>, steps: seq<Step>, i: nat, t: Tid, u: Tid)
    requires IsRun(run, steps) && i < |run| && t in run[i].pc && u in run[i].pc && HasBuf(run[i].pc[t])
      && HasBuf(run[i].pc[u])
    ensures run[i].pc[t].b in run[i].bufs && run[i].bufs[run[i].pc[t].b].ref > 0 && run[i].pc[t].b !in run[i].lru
    ensures run[i].pc[t].p == run[i].pc[u].p && !run[i].pc[t].Insert? && !run[i].pc[u].Insert? ==>
      run[i].pc[t].b == run[i].pc[u].b
  {
    RunInv(run, steps, i);
    assert ThreadOk(run[i], t) && ThreadOk(run[i], u) && BufOk(run[i], run[i].pc[t].b);
    assert t in Users(run[i].pc, run[i].pc[t].b);
  }

  // ----- Writes last -----

  predicate Moves(s: Step, t: Tid) { s.Go? && s.t == t }

  /** The step that puts the data of a write on the device. */
  predicate Puts(st: State, s: Step, p: nat) { s.Go? && s.t in st.pc && st.pc[s.t].Wrote? && st.pc[s.t].p == p }

  /** A write of a good buffer, or of a whole block, puts its data in the buffer and goes on to the device. */
  lemma {:induction false} WriteBegins(run: seq<State>, steps: seq<Step>, i: nat, t: Tid)
    requires IsRun(run, steps) && i < |steps| && Moves(steps[i], t) && t in run[i].pc && run[i].pc[t].Use?
    ensures
      var c, st' := run[i].pc[t], run[i + 1];
      && c.b in run[i].bufs && c.b in st'.bufs && t in st'.pc
      && (st'.pc[t].Wrote? <==> c.w && (run[i].bufs[c.b].ok || steps[i].ok))
      && (st'.pc[t].Wrote? ==> st'.pc[t] == Wrote(c.p, c.b) && st'.bufs[c.b].data == steps[i].data)
  {
    RunInv(run, steps, i);
    assert Taken(run[i], steps[i], run[i + 1]);
  }

  /** Nobody touches the buffer of a write that has begun. */
  lemma {:induction false} WriteAlone(st: State, s: Step, t: Tid)
    requires Inv(st) && Usable(st, s) && t in st.pc && st.pc[t].Wrote? && !Moves(s, t)
    ensures
      var st', b := Next(st, s), st.pc[t].b;
      && t in st'.pc && st'.pc[t] == st.pc[t] && b in st.bufs && b in st'.bufs
      && st'.bufs[b].data == st.bufs[b].data
  {
    var b := st.pc[t].b;
    assert ThreadOk(st, t) && BufOk(st, b) && t in Users(st.pc, b);
    if s.Go? {
      assert Alone(st.pc, t, s.t) && ThreadOk(st, s.t);
      assert st.pc[s.t].Insert? ==> Users(st.pc, st.pc[s.t].b) == {s.t};
    }
  }

  lemma {:induction false} WriteWaits(run: seq<State>, steps: seq<Step>, i: nat, j: nat, t: Tid)
    requires IsRun(run, steps) && i <= j < |run| && t in run[i].pc && run[i].pc[t].Wrote?
    requires forall k | i <= k < j :: !Moves(steps[k], t)
    ensures
      var b := run[i].pc[t].b;
      && t in run[j].pc && run[j].pc[t] == run[i].pc[t] && b in run[i].bufs && b in run[j].bufs
      && run[j].bufs[b].data == run[i].bufs[b].data
  {
    RunInv(run, steps, i);
    if i == j {
      assert ThreadOk(run[i], t);
    } else {
      WriteWaits(run, steps, i, j - 1, t);
      RunInv(run, steps, j - 1);
      assert Taken(run[j - 1], steps[j - 1], run[j]);
      WriteAlone(run[j - 1], steps[j - 1], t);
    }
  }

  lemma {:induction false} BlockKept(run: seq<State>, steps: seq<Step>, i: nat, j: nat, p: nat)
    requires IsRun(run, steps) && i <= j < |run| && p in run[i].blocks
    requires forall k | i <= k < j :: !Puts(run[k], steps[k], p)
    ensures p in run[j].blocks && run[j].blocks[p] == run[i].blocks[p]
  {
    if i < j {
      BlockKept(run, steps, i, j - 1, p);
      assert Taken(run[j - 1], steps[j - 1], run[j]);
      BlockSame(run[j - 1], steps[j - 1], p);
    }
  }

  lemma {:induction false} BlockSame(st: State, s: Step, p: nat)
    requires Usable(st, s) && !Puts(st, s, p) && p in st.blocks
    ensures p in Next(st, s).blocks && Next(st, s).blocks[p] == st.blocks[p]
  {}

  /**
   In every interleaving a write that succeeds leaves its data in its block until somebody writes
   that block again: it begins at step i, the device takes it at step j, and k is any later time.
   */
  lemma {:induction false} WriteLasts(run: seq<State>, steps: seq<Step>, i: nat, j: nat, k: nat, t: Tid)
    requires IsRun(run, steps) && i < j < k < |run| && Moves(steps[i], t) && Moves(steps[j], t) && steps[j].ok
    requires t in run[i].pc && run[i].pc[t].Use? && t in run[i + 1].pc && run[i + 1].pc[t].Wrote?
    requires forall l | i < l < j :: !Moves(steps[l], t)
    requires run[i].pc[t].p in run[j].blocks
    requires forall l | j < l < k :: !Puts(run[l], steps[l], run[i].pc[t].p)
    ensures run[i].pc[t].p in run[k].blocks && run[k].blocks[run[i].pc[t].p] == steps[i].data
  {
    WriteBegins(run, steps, i, t);
    WriteWaits(run, steps, i + 1, j, t);
    assert Taken(run[j], steps[j], run[j + 1]);
    BlockKept(run, steps, j + 1, k, run[i].pc[t].p);
  }

  // ----- Reads get what the device gives -----

  /** A buffer that the device filled is good. */
  lemma {:induction false} FillGood(run: seq<State>, steps: seq<Step>, i: nat, t: Tid)
    requires IsRun(run, steps) && i < |steps| && Moves(steps[i], t) && t in run[i].pc && run[i].pc[t].Fill?
    ensures
      var c, st' := run[i].pc[t], run[i + 1];
      && c.b in st'.bufs && t in st'.pc
      && (st'.bufs[c.b].ok <==> steps[i].ok && c.p in run[i].blocks)
      && (st'.pc[t] == if st'.bufs[c.b].ok then Lock(c.p, c.w, c.b) else Unref(c.p, c.b))
  {
    RunInv(run, steps, i);
    assert Taken(run[i], steps[i], run[i + 1]);
  }

  /** It stays good as long as it is there and no write to it fails. */
  lemma {:induction false} GoodStays(st: State, s: Step, b: Bid)
    requires Inv(st) && Usable(st, s) && b in st.bufs && st.bufs[b].ok && b in Next(st, s).bufs
    requires !Next(st, s).bufs[b].ok
    ensures s.Go? && On(st.pc[s.t], b) && (st.pc[s.t].Wrote? || st.pc[s.t].Fill?)
    ensures s.ok ==> st.pc[s.t].p !in st.blocks
  {}

  /** The list to reclaim from is in the order in which the buffers lost their last users. */
  lemma {:induction false} LruNext(st: State, s: Step, a: Bid, b: Bid)
    requires Inv(st) && Usable(st, s) && a in Next(st, s).lru && b in Next(st, s).lru
    requires Ahead(st.lru, a, b) || (a in st.lru && b !in st.lru)
    ensures Ahead(Next(st, s).lru, a, b)
  {
    if s.Reclaim? {
      ReclaimOrder(st.lru, a, b);
    } else if s.Go? {
      var c := st.pc[s.t];
      if c.Unref? { AheadAppend(st.lru, a, b, c.b); }
      if (c.Look? || c.Insert?) && c.p in st.table {
        var h := st.table[c.p];
        WithoutElems(st.lru, h);
        if h != a && h != b && Ahead(st.lru, a, b) { AheadWithout(st.lru, a, b, h); }
      }
    }
  }

  lemma {:induction false} ReclaimOrder(lru: seq<Bid>, a: Bid, b: Bid)
    requires NoDup(lru) && lru != [] && a in lru[1..] && b in lru[1..] && (Ahead(lru, a, b) || b !in lru)
    ensures Ahead(lru[1..], a, b)
  {
    assert lru == [lru[0]] + lru[1..];
    assert Without(lru, lru[0]) == lru[1..];
    if Ahead(lru, a, b) { AheadWithout(lru, a, b, lru[0]); }
  }

  // ----- A thread by itself -----

  ghost predicate Path(run: seq<State>, steps: seq<Step>) {
    |run| == |steps| + 1 && forall i | 0 <= i < |steps| :: Taken(run[i], steps[i], run[i + 1])
  }

  lemma {:induction false} Extend(run: seq<State>, steps: seq<Step>, s: Step)
    returns (run': seq<State>, steps': seq<Step>)
    requires Path(run, steps) && Inv(run[|steps|]) && Enabled(run[|steps|], s)
    ensures Path(run', steps') && run'[0] == run[0] && steps' == steps + [s]
    ensures Usable(run[|steps|], s) && run'[|steps'|] == Next(run[|steps|], s) && Inv(run'[|steps'|])
  {
    InvNext(run[|steps|], s);
    run', steps' := run + [Next(run[|steps|], s)], steps + [s];
    forall i | 0 <= i < |steps'| ensures Taken(run'[i], steps'[i], run'[i + 1]) {
      if i < |steps| { assert Taken(run[i], steps[i], run[i + 1]); }
    }
  }

  /** Nobody but t is at work. */
  ghost predicate Solo(st: State, t: Tid) { t in st.pc && forall u | u in st.pc && u != t :: st.pc[u] == Idle }

  /** A thread by itself finds the buffer of its block, or fills a new one. */
  lemma {:induction false} FindsBuffer(st: State, t: Tid, p: nat, w: bool, b: Bid)
    returns (run: seq<State>, steps: seq<Step>)
    requires Inv(st) && Solo(st, t) && st.pc[t] == Idle && p in st.blocks && b !in st.bufs
    ensures Path(run, steps) && run[0] == st
    ensures
      var end := run[|steps|];
      && Inv(end) && Solo(end, t) && end.blocks == st.blocks && end.pc[t].Lock? && end.pc[t].p == p && end.pc[t].w == w
      && end.pc[t].b in end.bufs
      && (p !in st.table ==> end.bufs[end.pc[t].b].ok && end.bufs[end.pc[t].b].data == st.blocks[p])
  {
    run, steps := Extend([st], [], Start(t, p, w));
    run, steps := Extend(run, steps, Go(t, b, 0, true));
    if p !in st.table {
      run, steps := Extend(run, steps, Go(t, b, 0, true));
      run, steps := Extend(run, steps, Go(t, b, 0, true));
    }
    assert ThreadOk(run[|steps|], t);
  }

  /** With the device answering it gets the buffer's lock, and what it fills is what the device holds. */
  lemma {:induction false} GetsBuffer(st: State, t: Tid, p: nat, w: bool, b: Bid)
    returns (run: seq<State>, steps: seq<Step>)
    requires Inv(st) && Solo(st, t) && st.pc[t] == Idle && p in st.blocks && b !in st.bufs
    ensures Path(run, steps) && run[0] == st
    ensures
      var end := run[|steps|];
      && Inv(end) && Solo(end, t) && end.blocks == st.blocks && end.pc[t].Use? && end.pc[t].p == p && end.pc[t].w == w
      && end.pc[t].b in end.bufs
      && (p !in st.table ==> end.bufs[end.pc[t].b].ok && end.bufs[end.pc[t].b].data == st.blocks[p])
  {
    run, steps := FindsBuffer(st, t, p, w, b);
    run, steps := Extend(run, steps, Go(t, b, 0, true));
  }

  /** And a write of a whole block by it ends with the data on the device and nothing else changed there. */
  lemma {:induction false} WritesAlone(st: State, t: Tid, p: nat, b: Bid, data: Data)
    returns (run: seq<State>, steps: seq<Step>)
    requires Inv(st) && Solo(st, t) && st.pc[t] == Idle && p in st.blocks && b !in st.bufs
    ensures Path(run, steps) && run[0] == st
    ensures
      var end := run[|steps|];
      Inv(end) && Solo(end, t) && end.pc[t] == Idle && end.blocks == st.blocks[p := data]
  {
    run, steps := GetsBuffer(st, t, p, true, b);
    assert ThreadOk(run[|steps|], t);
    run, steps := Extend(run, steps, Go(t, b, data, true));
    run, steps := Extend(run, steps, Go(t, b, 0, true));
    run, steps := Extend(run, steps, Go(t, b, 0, true));
  }
}
