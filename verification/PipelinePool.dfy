/** process loses no slot: what it keeps at every step, that it cannot hang, and what its nil return means. */
module PipelinePool {
  import opened Prelude
  import opened Store
  import opened Pipeline

  // ---- Every slot is in one place ----

  function One(b: bool): nat { if b then 1 else 0 }

  function Copies(xs: seq<Slot>, s: Slot): nat { multiset(xs)[s] }

  predicate Holds(pc: Pc, s: Slot) { (pc.Reading? || pc.Sending?) && pc.slot == s }

  function Held(ws: seq<Pc>, s: Slot): nat {
    if ws == [] then 0 else One(Holds(ws[0], s)) + Held(ws[1..], s)
  }

  function Queued(results: seq<Commit>, s: Slot): nat {
    if results == [] then 0 else One(results[0].slot == s) + Queued(results[1..], s)
  }

  function Undispatched(p: Pool, s: Slot): nat
    requires p.next <= |p.pending|
  {
    Copies(p.pending[p.next..], s)
  }

  /** Not yet handed out, with a worker, or waiting for the writer. */
  function InFlight(p: Pool, s: Slot): nat
    requires p.next <= |p.pending|
  {
    Undispatched(p, s) + Held(p.workers, s) + Queued(p.results, s)
  }

  function Settled(p: Pool, s: Slot): nat {
    Copies(p.written, s) + Copies(p.failed, s) + Copies(p.dropped, s)
  }

  /** `s` is in as many places as the work list has it. */
  ghost predicate Kept(p: Pool, s: Slot)
    requires p.next <= |p.pending|
  {
    InFlight(p, s) + Settled(p, s) == Copies(p.pending, s)
  }

  ghost predicate Conserved(p: Pool) { p.next <= |p.pending| && forall s :: Kept(p, s) }

  lemma {:induction false} HeldMove(ws: seq<Pc>, w: nat, pc: Pc, s: Slot)
    requires w < |ws|
    ensures Held(ws[w := pc], s) == Held(ws, s) - One(Holds(ws[w], s)) + One(Holds(pc, s))
  {
    if w > 0 {
      HeldMove(ws[1..], w - 1, pc, s);
      assert ws[w := pc][1..] == ws[1..][w - 1 := pc];
    } else {
      assert ws[w := pc][1..] == ws[1..];
    }
  }

  lemma {:induction false} QueuedPush(results: seq<Commit>, r: Commit, s: Slot)
    ensures Queued(results + [r], s) == Queued(results, s) + One(r.slot == s)
  {
    if results != [] {
      QueuedPush(results[1..], r, s);
      assert (results + [r])[1..] == results[1..] + [r];
    } else {
      assert ([r])[1..] == [];
    }
  }

  lemma CopiesPush(xs: seq<Slot>, x: Slot, s: Slot)
    ensures Copies(xs + [x], s) == Copies(xs, s) + One(x == s)
  {
  }

  lemma UndispatchedNext(p: Pool, s: Slot)
    requires p.next < |p.pending|
    ensures Undispatched(p, s) == One(p.pending[p.next] == s) + Copies(p.pending[p.next + 1..], s)
  {
    assert p.pending[p.next..] == [p.pending[p.next]] + p.pending[p.next + 1..];
  }

  lemma KeptDispatch(p: Pool, w: nat, s: Slot)
    requires p.next <= |p.pending| && EnabledWorker(p, Dispatch(w)) && Kept(p, s)
    ensures Kept(ApplyWorker(p, Dispatch(w)), s)
  {
    var slot := p.pending[p.next];
    HeldMove(p.workers, w, Reading(slot), s);
    UndispatchedNext(p, s);
    assert Undispatched(ApplyWorker(p, Dispatch(w)), s) == Undispatched(p, s) - One(slot == s);
  }

  lemma KeptSend(p: Pool, w: nat, s: Slot)
    requires p.next <= |p.pending| && EnabledWorker(p, Send(w)) && Kept(p, s)
    ensures Kept(ApplyWorker(p, Send(w)), s)
  {
    HeldMove(p.workers, w, Idle, s);
    QueuedPush(p.results, Commit(p.workers[w].slot, p.workers[w].rows), s);
  }

  /** A read that fails, a result that is dropped. */
  lemma KeptLost(p: Pool, st: Step, s: Slot)
    requires p.next <= |p.pending| && EnabledWorker(p, st) && (st.Drop? || st.ReadFail?) && Kept(p, s)
    ensures Kept(ApplyWorker(p, st), s)
  {
    HeldMove(p.workers, st.w, if st.Drop? then Exited else Idle, s);
    CopiesPush(if st.Drop? then p.dropped else p.failed, p.workers[st.w].slot, s);
  }

  lemma KeptWorker(p: Pool, st: Step, s: Slot)
    requires p.next <= |p.pending| && EnabledWorker(p, st) && Kept(p, s)
    ensures ApplyWorker(p, st).next <= |p.pending| && Kept(ApplyWorker(p, st), s)
  {
    match st
    case Dispatch(w) => KeptDispatch(p, w, s);
    case Send(w) => KeptSend(p, w, s);
    case Leave(w) => HeldMove(p.workers, w, Exited, s);
    case ReadOk(w, rows) => HeldMove(p.workers, w, Sending(p.workers[w].slot, rows), s);
    case _ => KeptLost(p, st, s);
  }

  lemma KeptWrite(p: Pool, ok: bool, s: Slot)
    requires p.next <= |p.pending| && p.results != [] && Kept(p, s)
    ensures Kept(ApplyMain(p, Write(ok)), s)
  {
    var q, slot := ApplyMain(p, Write(ok)), p.results[0].slot;
    CopiesPush(if ok then p.written else p.failed, slot, s);
    assert Settled(q, s) == Settled(p, s) + One(slot == s);
    assert InFlight(q, s) == InFlight(p, s) - One(slot == s) && q.pending == p.pending;
  }

  lemma KeptMain(p: Pool, st: Step, s: Slot)
    requires p.next <= |p.pending| && EnabledMain(p, st) && Kept(p, s)
    ensures Kept(ApplyMain(p, st), s)
  {
    if st.Write? { KeptWrite(p, st.ok, s); }
  }

  lemma ConservedStep(p: Pool, st: Step)
    requires Conserved(p) && EnabledPool(p, st)
    ensures Conserved(ApplyPool(p, st))
  {
    forall s ensures ApplyPool(p, st).next <= |p.pending| && Kept(ApplyPool(p, st), s) {
      assert Kept(p, s);
      if EnabledWorker(p, st) { KeptWorker(p, st, s); } else { KeptMain(p, st, s); }
    }
  }

  // ---- The rest of what the pool keeps ----

  ghost predicate MayLeave(p: Pool, pc: Pc) { pc.Exited? ==> p.closed || p.ctx }

  ghost predicate Orderly(p: Pool) {
    && |p.workers| > 0
    && p.slotsDone == |p.written| && p.failures == |p.failed|
    && (p.dropped != [] ==> p.ctx)
    && (p.closed ==> p.next == |p.pending| || p.ctx)
    && (forall w | 0 <= w < |p.workers| :: MayLeave(p, p.workers[w]))
    && (p.drained ==> forall w | 0 <= w < |p.workers| :: p.workers[w].Exited?)
  }

  lemma OrderlyWorker(p: Pool, st: Step)
    requires Conserved(p) && Orderly(p) && EnabledWorker(p, st)
    ensures Orderly(ApplyWorker(p, st))
  {
    var q := ApplyWorker(p, st);
    forall w | 0 <= w < |q.workers| ensures MayLeave(q, q.workers[w]) { assert MayLeave(p, p.workers[w]); }
  }

  lemma OrderlyMain(p: Pool, st: Step)
    requires Conserved(p) && Orderly(p) && EnabledMain(p, st)
    ensures Orderly(ApplyMain(p, st))
  {
    var q := ApplyMain(p, st);
    forall w | 0 <= w < |q.workers| ensures MayLeave(q, q.workers[w]) { assert MayLeave(p, p.workers[w]); }
  }

  ghost predicate PoolSafe(p: Pool) { Conserved(p) && Orderly(p) && Ascending(p.pending) }

  lemma {:induction false} NobodyHolds(ws: seq<Pc>, s: Slot)
    requires forall w | 0 <= w < |ws| :: ws[w].Idle? || ws[w].Exited?
    ensures Held(ws, s) == 0
  {
    if ws != [] { NobodyHolds(ws[1..], s); }
  }

  lemma NewPoolSafe(concurrency: int, pending: seq<Slot>, ctx: bool)
    requires Ascending(pending)
    ensures PoolSafe(NewPool(concurrency, pending, ctx))
  {
    var p := NewPool(concurrency, pending, ctx);
    assert pending[0..] == pending;
    forall s ensures Kept(p, s) { NobodyHolds(p.workers, s); }
  }

  lemma PoolStep(p: Pool, st: Step)
    requires PoolSafe(p) && EnabledPool(p, st)
    ensures PoolSafe(ApplyPool(p, st)) && ApplyPool(p, st).pending == p.pending
  {
    ConservedStep(p, st);
    if EnabledWorker(p, st) { OrderlyWorker(p, st); } else { OrderlyMain(p, st); }
  }

  // ---- What the end means ----

  /** At the end without a cancel, every slot was written or has failed, once, and was counted so. */
  lemma FinishedPool(p: Pool)
    requires PoolSafe(p) && Finishing(p) && !p.ctx
    ensures multiset(p.written + p.failed) == multiset(p.pending)
    ensures p.slotsDone + p.failures == |p.pending|
  {
    assert MayLeave(p, p.workers[0]);
    assert p.pending[p.next..] == [];
    forall s ensures multiset(p.written + p.failed)[s] == multiset(p.pending)[s] {
      NobodyHolds(p.workers, s);
      assert Kept(p, s);
    }
    assert multiset(p.written + p.failed) == multiset(p.pending);
    assert |multiset(p.written + p.failed)| == |p.written + p.failed|;
    assert |multiset(p.pending)| == |p.pending|;
  }

  // ---- Somebody can always step ----

  /** Some goroutine of the pool has an enabled step that is neither a cancel nor a failure. */
  ghost predicate CanStep(p: Pool) {
    exists st :: EnabledPool(p, st) && !st.CancelCtx? && !st.ReadFail? && st != Write(false)
  }

  lemma PoolNoDeadlock(p: Pool)
    requires PoolSafe(p) && !Finishing(p)
    ensures CanStep(p)
  {
    if p.results != [] {
      assert EnabledPool(p, Write(true));
    } else if w: nat :| At(p, w) && !p.workers[w].Idle? && !p.workers[w].Exited? {
      assert EnabledPool(p, if p.workers[w].Reading? then ReadOk(w, []) else Send(w));
    } else if p.next >= |p.pending| && !p.closed {
      assert EnabledPool(p, EndDispatch);
    } else if w: nat :| At(p, w) && p.workers[w].Idle? {
      assert EnabledPool(p, if p.closed then Leave(w) else Dispatch(w));
    } else {
      assert EnabledPool(p, CloseResults);
    }
  }

  // ---- And it comes to an end ----

  function PcRank(pc: Pc): nat {
    match pc
    case Reading(_) => 4
    case Sending(_, _) => 3
    case Idle => 1
    case Exited => 0
  }

  function Ranks(ws: seq<Pc>): nat {
    if ws == [] then 0 else PcRank(ws[0]) + Ranks(ws[1..])
  }

  lemma {:induction false} RanksMove(ws: seq<Pc>, w: nat, pc: Pc)
    requires w < |ws|
    ensures Ranks(ws[w := pc]) == Ranks(ws) - PcRank(ws[w]) + PcRank(pc)
  {
    if w > 0 {
      RanksMove(ws[1..], w - 1, pc);
      assert ws[w := pc][1..] == ws[1..][w - 1 := pc];
    } else {
      assert ws[w := pc][1..] == ws[1..];
    }
  }

  function Flag(b: bool): nat { if b then 0 else 1 }

  function Rank(p: Pool): int {
    4 * (|p.pending| - p.next) + Ranks(p.workers) + |p.results| + Flag(p.closed) + Flag(p.drained) + Flag(p.ctx)
  }

  /** Every step of the pool lowers a rank that stays non-negative. */
  lemma RankStep(p: Pool, st: Step)
    requires PoolSafe(p) && EnabledPool(p, st)
    ensures 0 <= Rank(ApplyPool(p, st)) < Rank(p)
  {
    if EnabledWorker(p, st) { RanksMove(p.workers, st.w, ApplyWorker(p, st).workers[st.w]); }
    PoolStep(p, st);
  }
}
