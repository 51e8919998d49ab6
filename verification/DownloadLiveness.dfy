/**
 runChunks cannot hang: in every reachable state some goroutine can step, and every step lowers a rank.
 In particular a worker never blocks on the error queue, and the dispatcher is released when no worker
 is left to take its job.
 */
module DownloadLiveness {
  import opened Disk
  import opened Download
  import opened DownloadSafety
  import opened DownloadProtocol

  // ---- The error queue has room ----

  predicate Gone(pc: Pc) { pc.Cancelling? || pc.Exited? }

  function Spent(ws: seq<Pc>): nat {
    if ws == [] then 0 else Spent(ws[1..]) + if Gone(ws[0]) then 1 else 0
  }

  lemma {:induction false} SpentMove(ws: seq<Pc>, w: nat, pc: Pc)
    requires w < |ws|
    ensures Spent(ws[w := pc]) == Spent(ws)
                                  - (if Gone(ws[w]) then 1 else 0)
                                  + (if Gone(pc) then 1 else 0)
  {
    if w > 0 {
      SpentMove(ws[1..], w - 1, pc);
      assert ws[w := pc][1..] == ws[1..][w - 1 := pc];
    } else {
      assert ws[w := pc][1..] == ws[1..];
    }
  }

  lemma {:induction false} SpentBound(ws: seq<Pc>, w: nat)
    requires w < |ws| && !Gone(ws[w])
    ensures Spent(ws) < |ws|
  {
    SpentMove(ws, w, Exited);
    SpentAtMost(ws[w := Exited]);
  }

  lemma {:induction false} SpentAtMost(ws: seq<Pc>)
    ensures Spent(ws) <= |ws|
  {
    if ws != [] { SpentAtMost(ws[1..]); }
  }

  /** At most one error per worker is ever queued. */
  ghost predicate Roomy(s: Session) { |s.errs| <= Spent(s.workers) }

  /** A worker moves: it queues an error as it leaves, or queues none and does not come back. */
  lemma RoomyMove(s: Session, s': Session, w: nat)
    requires Roomy(s) && At(s, w) && At(s', w) && s'.workers == s.workers[w := s'.workers[w]]
    requires Gone(s.workers[w]) ==> Gone(s'.workers[w])
    requires |s'.errs| <= |s.errs| + if Gone(s'.workers[w]) && !Gone(s.workers[w]) then 1 else 0
    ensures Roomy(s')
  {
    SpentMove(s.workers, w, s'.workers[w]);
  }

  lemma RoomyWorker(c: Config, s: Session, st: Step)
    requires Roomy(s) && EnabledWorker(c, s, st)
    ensures Roomy(ApplyWorker(c, s, st))
  {
    RoomyMove(s, ApplyWorker(c, s, st), st.w);
  }

  lemma RoomyUnlock(s: Session, ok: bool)
    requires Roomy(s) && s.lock.Held?
    ensures Roomy(Unlock(s, ok))
  {
    if s.lock.owner.Worker? && At(s, s.lock.owner.w) {
      var w := s.lock.owner.w;
      assert s.workers == s.workers[w := s.workers[w]];
      RoomyMove(s, Unlock(s, ok), w);
    }
  }

  lemma RoomyFlush(s: Session, st: Step)
    requires Roomy(s) && EnabledFlush(s, st)
    ensures Roomy(ApplyFlush(s, st))
  {
    FlushMoves(s, st);
    RoomyUnlock(s, st.ok);
  }

  lemma RoomyMain(s: Session, st: Step)
    requires Roomy(s) && EnabledMain(s, st)
    ensures Roomy(ApplyMain(s, st))
  {
    if st.Dispatch? { SpentMove(s.workers, st.w, Fetching(s.todo[s.next])); }
  }

  ghost predicate Live(w: World) { w.proc.Running? ==> Protocol(w.proc.s) && Roomy(w.proc.s) }

  lemma RoomySession(c: Config, s: Session, st: Step)
    requires Roomy(s) && EnabledSession(c, s, st)
    ensures Roomy(ApplySession(c, s, st))
  {
    if EnabledWorker(c, s, st) { RoomyWorker(c, s, st); }
    else if EnabledFlush(s, st) { RoomyFlush(s, st); }
    else { RoomyMain(s, st); }
  }

  lemma LiveStep(c: Config, w: World, st: Step)
    requires Live(w) && Enabled(c, w, st)
    ensures Live(Apply(c, w, st))
  {
    WorldProtocolStep(c, w, st);
    if !st.Open? && !st.Close? && !st.Kill? && !st.Crash? { RoomySession(c, w.proc.s, st); }
  }

  lemma {:induction false} LiveRun(c: Config, w: World, steps: seq<Step>, w': World)
    requires Live(w) && Executes(c, w, steps, w')
    ensures Live(w')
    decreases |steps|
  {
    if steps != [] {
      LiveStep(c, w, steps[0]);
      LiveRun(c, Apply(c, w, steps[0]), steps[1..], w');
    }
  }

  // ---- Somebody can always step ----

  /** Nothing goes wrong in this step: no request, write or flush fails, and the caller does not cancel. */
  predicate Fine(c: Config, s: Session, st: Step) {
    match st
    case FetchFail(_, _) => false
    case Write(w, k) => At(s, w) && s.workers[w].Writing? && k == Len(Total(c), s.workers[w].i)
    case FlushSync(ok) => ok
    case FlushOpen(ok) => ok
    case FlushWrite(_, ok) => ok
    case CancelParent => false
    case _ => true
  }

  /** Some goroutine of the session has an enabled step in which nothing goes wrong. */
  ghost predicate CanStep(c: Config, s: Session) { exists st :: EnabledSession(c, s, st) && Fine(c, s, st) }

  /** A worker with anything to do can do it, once the lock is free. */
  lemma BusyWorkerSteps(c: Config, s: Session, w: nat)
    requires LockShape(s) && Roomy(s) && s.lock.Free?
    requires At(s, w) && !s.workers[w].Idle? && !s.workers[w].Exited?
    requires s.workers[w].Writing? ==> s.workers[w].i < N(c)
    ensures CanStep(c, s)
  {
    match s.workers[w]
    case Fetching(i) => assert EnabledSession(c, s, FetchOk(w));
    case Writing(i) =>
      ChunkInRange(c, i);
      assert EnabledSession(c, s, Write(w, Len(Total(c), i)));
    case Marking(i) => assert EnabledSession(c, s, Mark(w));
    case Checking(i) => assert EnabledSession(c, s, MaybeFlush(w));
    case Reporting(i) => assert EnabledSession(c, s, Report(w));
    case Failing(e) =>
      SpentBound(s.workers, w);
      assert EnabledSession(c, s, PushErr(w));
    case Cancelling => assert EnabledSession(c, s, CancelCtx(w));
    case Flushing(i) => assert false;
  }

  lemma IdlePoolSteps(c: Config, s: Session)
    requires Protocol(s) && s.lock.Free? && !s.main.Returning?
    requires forall w | 0 <= w < |s.workers| :: s.workers[w].Idle? || s.workers[w].Exited?
    ensures CanStep(c, s)
  {
    if s.main.WantLock? {
      assert EnabledSession(c, s, LockMain);
    } else if s.main.Deciding? {
      assert EnabledSession(c, s, Decide);
    } else if s.disp.Checked? {
      assert EnabledSession(c, s, Recheck);
    } else if s.disp.Selecting? && s.next >= |s.todo| {
      assert EnabledSession(c, s, EndLoop);
    } else if w: nat :| At(s, w) && s.workers[w].Idle? {
      assert EnabledSession(c, s, if s.disp.Closed? then Leave(w) else Dispatch(w));
    } else {
      assert BlamePc(s, s.workers[0]) && s.workers[0].Exited?;
      assert EnabledSession(c, s, if s.disp.Closed? then Join else SeeCancel);
    }
  }

  lemma LockHolderSteps(c: Config, s: Session)
    requires s.lock.Held?
    ensures CanStep(c, s)
  {
    match s.lock.stage
    case AtSync => assert EnabledSession(c, s, FlushSync(true));
    case AtOpen => assert EnabledSession(c, s, FlushOpen(true));
    case AtWrite => assert EnabledSession(c, s, FlushWrite(|s.state|, true));
  }

  lemma SessionCanStep(c: Config, data: File, side: File, s: Session)
    requires SessionSafe(c, data, side, s) && Protocol(s) && Roomy(s) && !s.main.Returning?
    ensures CanStep(c, s)
  {
    if s.lock.Held? {
      LockHolderSteps(c, s);
    } else if v: nat :| At(s, v) && !s.workers[v].Idle? && !s.workers[v].Exited? {
      assert PcSafe(c, data, s.workers[v]);
      BusyWorkerSteps(c, s, v);
    } else {
      IdlePoolSteps(c, s);
    }
  }

  /** No deadlock: until the call returns, some goroutine has an enabled step. */
  lemma NoDeadlock(c: Config, w0: World, steps: seq<Step>, w: World)
    requires Fresh(c, w0) && Executes(c, w0, steps, w) && w.proc.Running?
    ensures w.proc.s.main.Returning? || CanStep(c, w.proc.s)
  {
    LiveRun(c, w0, steps, w);
    FreshSafe(c, w0);
    SafeRun(c, w0, steps, w);
    if !w.proc.s.main.Returning? { SessionCanStep(c, w.data, w.side, w.proc.s); }
  }

  /**
   In every reachable state a failing worker can queue its error at once, and a dispatcher whose workers are
   all gone finds the context cancelled.
   */
  lemma NobodyWaitsForever(c: Config, w0: World, steps: seq<Step>, w: World)
    requires Fresh(c, w0) && Executes(c, w0, steps, w) && w.proc.Running?
    ensures forall v: nat | At(w.proc.s, v) && w.proc.s.workers[v].Failing? :: Enabled(c, w, PushErr(v))
    ensures w.proc.s.main.Waiting? && w.proc.s.disp.Selecting? && AllExited(w.proc.s) ==> w.proc.s.ctx
  {
    LiveRun(c, w0, steps, w);
    var s := w.proc.s;
    forall v: nat | At(s, v) && s.workers[v].Failing? ensures Enabled(c, w, PushErr(v)) { SpentBound(s.workers, v); }
    if s.main.Waiting? && AllExited(s) { assert BlamePc(s, s.workers[0]); }
  }

  /** Every call of the operating system or the network may fail, at every byte, and the caller may cancel. */
  lemma AnythingMayFail(c: Config, w: World, v: nat)
    requires w.proc.Running? && At(w.proc.s, v)
    ensures var s := w.proc.s;
            && (s.workers[v].Fetching? ==> Enabled(c, w, FetchFail(v, Io)))
            && (s.workers[v].Fetching? && s.ctx ==> Enabled(c, w, FetchFail(v, Induced)))
            && (s.workers[v].Writing? ==>
                  forall k: nat | k <= Len(Total(c), s.workers[v].i) :: Enabled(c, w, Write(v, k)))
            && (s.lock == Held(Worker(v), AtSync) ==> forall ok :: Enabled(c, w, FlushSync(ok)))
            && (s.lock == Held(Worker(v), AtOpen) ==> forall ok :: Enabled(c, w, FlushOpen(ok)))
            && (s.lock == Held(Worker(v), AtWrite) ==>
                  forall k: nat | k <= |s.state| :: Enabled(c, w, FlushWrite(k, false)))
    ensures Enabled(c, w, Kill) && (!w.proc.s.parent ==> Enabled(c, w, CancelParent))
    ensures forall d, p | Survives(w.data, d) && Survives(w.side, p) :: Enabled(c, w, Crash(d, p))
  {}

  // ---- And it comes to an end ----

  function PcRank(pc: Pc): nat {
    match pc
    case Fetching(_) => 11
    case Writing(_) => 10
    case Marking(_) => 9
    case Checking(_) => 8
    case Flushing(_) => 4
    case Reporting(_) => 3
    case Idle => 2
    case Failing(_) => 2
    case Cancelling => 1
    case Exited => 0
  }

  function PoolRank(ws: seq<Pc>): nat {
    if ws == [] then 0 else PcRank(ws[0]) + PoolRank(ws[1..])
  }

  lemma {:induction false} PoolRankMove(ws: seq<Pc>, w: nat, pc: Pc)
    requires w < |ws|
    ensures PoolRank(ws[w := pc]) == PoolRank(ws) - PcRank(ws[w]) + PcRank(pc)
  {
    if w > 0 {
      PoolRankMove(ws[1..], w - 1, pc);
      assert ws[w := pc][1..] == ws[1..][w - 1 := pc];
    } else {
      assert ws[w := pc][1..] == ws[1..];
    }
  }

  function LockRank(lock: Lock): nat {
    match lock
    case Free => 0
    case Held(_, AtSync) => 3
    case Held(_, AtOpen) => 2
    case Held(_, AtWrite) => 1
  }

  function MainRank(m: MainPc): nat {
    match m
    case Waiting => 8
    case WantLock => 7
    case FinalFlush => 3
    case Deciding => 2
    case Returning(_) => 1
  }

  function DispRank(d: Dispatcher): nat {
    match d
    case Checked => 2
    case Selecting => 1
    case Closed => 0
  }

  function Rank(s: Session): int {
    PoolRank(s.workers) + 20 * (|s.todo| - s.next) + LockRank(s.lock) + MainRank(s.main) + DispRank(s.disp)
    + if s.parent then 0 else 1
  }

  /** Moving one worker, and perhaps the lock, changes the rank by what those two lose. */
  lemma RankOfMove(s: Session, s': Session, w: nat)
    requires At(s, w) && At(s', w) && s'.workers == s.workers[w := s'.workers[w]]
    requires s'.todo == s.todo && s'.next == s.next && s'.main == s.main && s'.disp == s.disp && s'.parent == s.parent
    requires PcRank(s'.workers[w]) + LockRank(s'.lock) < PcRank(s.workers[w]) + LockRank(s.lock)
    ensures Rank(s') < Rank(s)
  {
    PoolRankMove(s.workers, w, s'.workers[w]);
  }

  lemma RankWorker(c: Config, s: Session, st: Step)
    requires EnabledWorker(c, s, st)
    ensures Rank(ApplyWorker(c, s, st)) < Rank(s)
  {
    RankOfMove(s, ApplyWorker(c, s, st), st.w);
  }

  lemma RankUnlock(s: Session, ok: bool)
    requires LockShape(s) && s.lock.Held?
    ensures Rank(Unlock(s, ok)) < Rank(s)
  {
    if s.lock.owner.Worker? { RankOfMove(s, Unlock(s, ok), s.lock.owner.w); }
  }

  lemma RankFlush(s: Session, st: Step)
    requires LockShape(s) && EnabledFlush(s, st)
    ensures Rank(ApplyFlush(s, st)) < Rank(s)
  {
    RankUnlock(s, st.ok);
  }

  lemma RankMain(s: Session, st: Step)
    requires EnabledMain(s, st)
    ensures Rank(ApplyMain(s, st)) < Rank(s)
  {
    if st.Dispatch? { PoolRankMove(s.workers, st.w, Fetching(s.todo[s.next])); }
  }

  lemma RankSession(c: Config, s: Session, st: Step)
    requires LockShape(s) && EnabledSession(c, s, st)
    ensures Rank(ApplySession(c, s, st)) < Rank(s)
  {
    if EnabledWorker(c, s, st) { RankWorker(c, s, st); }
    else if EnabledFlush(s, st) { RankFlush(s, st); }
    else { RankMain(s, st); }
  }

  lemma RankNotNegative(s: Session)
    requires Protocol(s)
    ensures Rank(s) >= 0
  {}

  /** Termination: every step of a call, whoever takes it, lowers a rank that stays non-negative. */
  lemma EveryStepDescends(c: Config, w0: World, steps: seq<Step>, w: World, st: Step)
    requires w0.proc.NotRunning? && Executes(c, w0, steps, w) && w.proc.Running?
    requires EnabledSession(c, w.proc.s, st)
    ensures 0 <= Rank(ApplySession(c, w.proc.s, st)) < Rank(w.proc.s)
  {
    LiveRun(c, w0, steps, w);
    ProtocolStep(c, w.proc.s, st);
    RankSession(c, w.proc.s, st);
    RankNotNegative(ApplySession(c, w.proc.s, st));
  }
}
