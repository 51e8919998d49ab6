/**
 The goroutine protocol of runChunks: who holds the lock, which chunk is where, why the context is
 cancelled.  From it: a nil return means every chunk landed, and the error returned is a root cause.
 */
module DownloadProtocol {
  import opened Prelude
  import opened Parts
  import opened Download

  // ---- Lock and main goroutine ----

  ghost predicate AllExited(s: Session) {
    forall w | 0 <= w < |s.workers| :: s.workers[w].Exited?
  }

  ghost predicate LockPc(lock: Lock, w: nat, pc: Pc) {
    pc.Flushing? ==> lock.Held? && lock.owner == Worker(w)
  }

  ghost predicate LockShape(s: Session) {
    && (s.lock.Held? && s.lock.owner.Main? ==> s.main.FinalFlush?)
    && (s.lock.Held? && s.lock.owner.Worker? ==> At(s, s.lock.owner.w) && s.workers[s.lock.owner.w].Flushing?)
    && (s.main.FinalFlush? ==> s.lock.Held? && s.lock.owner.Main?)
    && forall w | 0 <= w < |s.workers| :: LockPc(s.lock, w, s.workers[w])
  }

  lemma LockWorker(c: Config, s: Session, st: Step)
    requires LockShape(s) && EnabledWorker(c, s, st)
    ensures LockShape(ApplyWorker(c, s, st))
  {
    var s' := ApplyWorker(c, s, st);
    assert LockPc(s.lock, st.w, s.workers[st.w]);
    forall w | 0 <= w < |s'.workers| ensures LockPc(s'.lock, w, s'.workers[w]) {
      assert LockPc(s.lock, w, s.workers[w]);
    }
  }

  lemma LockFlush(s: Session, st: Step)
    requires LockShape(s) && EnabledFlush(s, st)
    ensures LockShape(ApplyFlush(s, st))
  {
    var s' := ApplyFlush(s, st);
    forall w | 0 <= w < |s'.workers| ensures LockPc(s'.lock, w, s'.workers[w]) {
      assert LockPc(s.lock, w, s.workers[w]);
    }
  }

  lemma LockMainStep(s: Session, st: Step)
    requires LockShape(s) && EnabledMain(s, st)
    ensures LockShape(ApplyMain(s, st))
  {
    var s' := ApplyMain(s, st);
    forall w | 0 <= w < |s'.workers| ensures LockPc(s'.lock, w, s'.workers[w]) {
      assert LockPc(s.lock, w, s.workers[w]);
    }
  }

  ghost predicate MainShape(s: Session) {
    && s.next <= |s.todo|
    && (!s.main.Waiting? ==> AllExited(s))
    && (!s.main.Waiting? && s.workers != [] ==> s.disp.Closed?)
    && (!s.main.Returning? ==> s.workers != [])
  }

  lemma MainWorker(c: Config, s: Session, st: Step)
    requires MainShape(s) && EnabledWorker(c, s, st)
    ensures MainShape(ApplyWorker(c, s, st))
  {
    assert !s.workers[st.w].Exited?;
  }

  lemma MainFlush(s: Session, st: Step)
    requires MainShape(s) && LockShape(s) && EnabledFlush(s, st)
    ensures MainShape(ApplyFlush(s, st))
  {}

  lemma MainMain(s: Session, st: Step)
    requires MainShape(s) && EnabledMain(s, st)
    ensures MainShape(ApplyMain(s, st))
  {}

  // ---- Every dispatched chunk is accounted for ----

  predicate InFlight(pc: Pc, i: nat) {
    pc.Failing? || pc == Fetching(i) || pc == Writing(i) || pc == Marking(i)
  }

  /** A dispatched chunk is recorded, or a worker has it, or an error is queued. */
  ghost predicate Covered(s: Session, i: nat) {
    || (i < |s.state| && s.state[i] != 0)
    || s.errs != []
    || exists w: nat :: At(s, w) && InFlight(s.workers[w], i)
  }

  ghost predicate Coverage(s: Session) {
    && s.next <= |s.todo|
    && (forall p | 0 <= p < s.next :: Covered(s, s.todo[p]))
    && (forall i | i in s.todo :: i < |s.state|)
    && (forall j: nat | j < |s.state| && s.state[j] == 0 :: j in s.todo)
  }

  /** Chunks stay listed and recorded; only Dispatch moves `next`. */
  ghost predicate Frame(s: Session, s': Session) {
    && s'.todo == s.todo && |s'.state| == |s.state|
    && forall j: nat | j < |s.state| && s.state[j] != 0 :: s'.state[j] != 0
  }

  lemma CoveredWorker(c: Config, s: Session, st: Step, i: nat)
    requires EnabledWorker(c, s, st) && i < |s.state| && Covered(s, i)
    ensures Covered(ApplyWorker(c, s, st), i)
  {
    var s' := ApplyWorker(c, s, st);
    if s.errs == [] && s.state[i] == 0 {
      var w: nat :| At(s, w) && InFlight(s.workers[w], i);
      if s'.errs == [] && s'.state[i] == 0 {
        assert At(s', w) && InFlight(s'.workers[w], i);
      }
    }
  }

  lemma CoveredFlush(s: Session, st: Step, i: nat)
    requires EnabledFlush(s, st) && i < |s.state| && Covered(s, i)
    ensures Covered(ApplyFlush(s, st), i)
  {
    var s' := ApplyFlush(s, st);
    if s.errs == [] && s.state[i] == 0 {
      var w: nat :| At(s, w) && InFlight(s.workers[w], i);
      assert At(s', w) && InFlight(s'.workers[w], i);
    }
  }

  lemma CoveredMain(s: Session, st: Step, i: nat)
    requires EnabledMain(s, st) && i < |s.state| && Covered(s, i)
    ensures Covered(ApplyMain(s, st), i)
  {
    var s' := ApplyMain(s, st);
    if s.errs == [] && s.state[i] == 0 {
      var w: nat :| At(s, w) && InFlight(s.workers[w], i);
      assert At(s', w) && InFlight(s'.workers[w], i);
    }
  }

  lemma CoverageWorker(c: Config, s: Session, st: Step)
    requires Coverage(s) && EnabledWorker(c, s, st)
    ensures Coverage(ApplyWorker(c, s, st)) && Frame(s, ApplyWorker(c, s, st))
  {
    var s' := ApplyWorker(c, s, st);
    assert Frame(s, s') && s'.next == s.next;
    forall p | 0 <= p < s'.next ensures Covered(s', s'.todo[p]) {
      assert s.todo[p] in s.todo;
      CoveredWorker(c, s, st, s.todo[p]);
    }
  }

  lemma CoverageFlush(s: Session, st: Step)
    requires Coverage(s) && EnabledFlush(s, st)
    ensures Coverage(ApplyFlush(s, st)) && Frame(s, ApplyFlush(s, st))
  {
    var s' := ApplyFlush(s, st);
    assert Frame(s, s') && s'.next == s.next;
    forall p | 0 <= p < s'.next ensures Covered(s', s'.todo[p]) {
      assert s.todo[p] in s.todo;
      CoveredFlush(s, st, s.todo[p]);
    }
  }

  lemma CoverageMain(s: Session, st: Step)
    requires Coverage(s) && EnabledMain(s, st)
    ensures Coverage(ApplyMain(s, st)) && Frame(s, ApplyMain(s, st))
  {
    var s' := ApplyMain(s, st);
    forall p | 0 <= p < s'.next ensures Covered(s', s'.todo[p]) {
      assert s.todo[p] in s.todo;
      if p < s.next {
        CoveredMain(s, st, s.todo[p]);
      } else {
        assert At(s', st.w) && InFlight(s'.workers[st.w], s.todo[p]);
      }
    }
  }

  // ---- Why the context is cancelled ----

  ghost predicate BlamePc(s: Session, pc: Pc) {
    && (pc == Failing(Induced) ==> s.ctx)
    && (pc.Cancelling? ==> s.errs != [])
    && (pc.Exited? ==> s.ctx || s.disp.Closed?)
  }

  ghost predicate Blame(s: Session) {
    && (s.parent ==> s.ctx)
    && (s.ctx ==> s.parent || (s.errs != [] && s.errs[0].Io?))
    && (s.errs != [] && s.errs[0].Induced? ==> s.parent)
    && (s.workers != [] && s.disp.Closed? ==> s.next >= |s.todo| || s.ctx)
    && forall w | 0 <= w < |s.workers| :: BlamePc(s, s.workers[w])
  }

  lemma BlameWorker(c: Config, s: Session, st: Step)
    requires Blame(s) && EnabledWorker(c, s, st)
    ensures Blame(ApplyWorker(c, s, st))
  {
    var s' := ApplyWorker(c, s, st);
    assert BlamePc(s, s.workers[st.w]);
    forall w | 0 <= w < |s'.workers| ensures BlamePc(s', s'.workers[w]) {
      assert BlamePc(s, s.workers[w]);
    }
  }

  lemma BlameFlush(s: Session, st: Step)
    requires Blame(s) && EnabledFlush(s, st)
    ensures Blame(ApplyFlush(s, st))
  {
    var s' := ApplyFlush(s, st);
    FlushMoves(s, st);
    UnlockFrame(s, st.ok);
    forall w | 0 <= w < |s'.workers| ensures BlamePc(s', s'.workers[w]) {
      assert BlamePc(s, s.workers[w]);
      UnlockMoves(s, st.ok, w);
    }
  }

  lemma BlameMain(s: Session, st: Step)
    requires Blame(s) && EnabledMain(s, st)
    ensures Blame(ApplyMain(s, st))
  {
    var s' := ApplyMain(s, st);
    forall w | 0 <= w < |s'.workers| ensures BlamePc(s', s'.workers[w]) {
      assert BlamePc(s, s.workers[w]);
    }
  }

  // ---- What the call returns ----

  ghost predicate Verdict(s: Session) {
    && (s.main == Returning(Done) ==> AllDone(s.state))
    && (s.main == Returning(Failed(Induced)) || s.main == Returning(ParentCancelled) ==> s.parent)
  }

  ghost predicate Protocol(s: Session) {
    LockShape(s) && MainShape(s) && Coverage(s) && Blame(s) && Verdict(s)
  }

  /** With every worker gone, nothing queued and nobody cancelled, every chunk is recorded. */
  lemma QuietMeansDone(s: Session)
    requires Coverage(s) && Blame(s) && MainShape(s) && s.main.Deciding? && s.errs == [] && !s.parent
    ensures AllDone(s.state)
  {
    forall j: nat | j < |s.state| ensures s.state[j] != 0 {
      if s.state[j] == 0 { assert false; }
    }
  }

  lemma ProtocolWorker(c: Config, s: Session, st: Step)
    requires Protocol(s) && EnabledWorker(c, s, st)
    ensures Protocol(ApplyWorker(c, s, st))
  {
    LockWorker(c, s, st);
    MainWorker(c, s, st);
    CoverageWorker(c, s, st);
    BlameWorker(c, s, st);
    VerdictKept(s, ApplyWorker(c, s, st));
  }

  lemma ProtocolFlush(s: Session, st: Step)
    requires Protocol(s) && EnabledFlush(s, st)
    ensures Protocol(ApplyFlush(s, st))
  {
    LockFlush(s, st);
    MainFlush(s, st);
    CoverageFlush(s, st);
    BlameFlush(s, st);
    VerdictFlush(s, st);
  }

  lemma ProtocolMain(s: Session, st: Step)
    requires Protocol(s) && EnabledMain(s, st)
    ensures Protocol(ApplyMain(s, st))
  {
    LockMainStep(s, st);
    MainMain(s, st);
    CoverageMain(s, st);
    BlameMain(s, st);
    VerdictMain(s, st);
  }

  lemma ProtocolStep(c: Config, s: Session, st: Step)
    requires Protocol(s) && EnabledSession(c, s, st)
    ensures Protocol(ApplySession(c, s, st))
  {
    if EnabledWorker(c, s, st) { ProtocolWorker(c, s, st); }
    else if EnabledFlush(s, st) { ProtocolFlush(s, st); }
    else { ProtocolMain(s, st); }
  }

  lemma VerdictKept(s: Session, s': Session)
    requires Verdict(s) && Frame(s, s') && s'.main == s.main && s'.parent == s.parent
    ensures Verdict(s')
  {}

  lemma VerdictFlush(s: Session, st: Step)
    requires Verdict(s) && EnabledFlush(s, st)
    ensures Verdict(ApplyFlush(s, st))
  {}

  lemma VerdictMain(s: Session, st: Step)
    requires Protocol(s) && EnabledMain(s, st)
    ensures Verdict(ApplyMain(s, st))
  {
    if st.Decide? && s.errs == [] && !s.parent { QuietMeansDone(s); }
  }

  lemma ProtocolStart(c: Config, state: Bytes, size: nat, stopped: bool)
    requires |PendingOf(state)| <= |state|
    ensures Protocol(NewSession(c, state, size, stopped))
  {
    PendingIsExact(state);
  }

  ghost predicate WorldProtocol(w: World) { w.proc.Running? ==> Protocol(w.proc.s) }

  lemma WorldProtocolStep(c: Config, w: World, st: Step)
    requires WorldProtocol(w) && Enabled(c, w, st)
    ensures WorldProtocol(Apply(c, w, st))
  {
    if st.Open? {
      var state := LoadState(w.side.live, ChunkCount(Total(c)));
      var data := OpenedData(c, w.data, st.fault, st.statOk);
      PendingFits(state);
      ProtocolStart(c, state, LiveSize(data), OpenStops(c, w.data, st.fault, st.statOk));
    } else if !st.Close? && !st.Kill? && !st.Crash? {
      ProtocolStep(c, w.proc.s, st);
    }
  }

  lemma {:induction false} ProtocolRun(c: Config, w: World, steps: seq<Step>, w': World)
    requires WorldProtocol(w) && Executes(c, w, steps, w')
    ensures WorldProtocol(w')
    decreases |steps|
  {
    if steps != [] {
      WorldProtocolStep(c, w, steps[0]);
      ProtocolRun(c, Apply(c, w, steps[0]), steps[1..], w');
    }
  }

  /**
   Root cause wins.  In any run, if the caller has not cancelled, runChunks never returns an error that its
   own internal cancel induced in some request.
   */
  lemma RootCauseWins(c: Config, w0: World, steps: seq<Step>, w: World)
    requires w0.proc.NotRunning? && Executes(c, w0, steps, w)
    requires w.proc.Running? && w.proc.s.main.Returning? && !w.proc.s.parent
    ensures w.proc.s.main.r != Failed(Induced) && w.proc.s.main.r != ParentCancelled
  {
    ProtocolRun(c, w0, steps, w);
  }
}
