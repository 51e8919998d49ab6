/**
 What a call returns: nil when nothing went wrong, else the first error queued, or the caller's cancel, or
 the final flush's failure.  And a call in which nothing goes wrong does come to its nil return.
 */
module DownloadVerdict {
  import opened Prelude
  import opened Parts
  import opened Download
  import opened DownloadSafety
  import opened DownloadProtocol
  import opened DownloadOutcome
  import opened DownloadLiveness

  // ---- Every verdict ----

  /** A call with chunks to fetch returns nothing else, and nil only when there was nothing to report. */
  ghost predicate Answers(s: Session) {
    s.main.Returning? && s.workers != [] ==>
      match s.main.r
      case Done => s.errs == [] && !s.flushErr
      case ParentCancelled => s.parent
      case Failed(e) => (s.errs != [] && e == s.errs[0]) || (s.flushErr && e.Io?)
  }

  /** With no failed flush and no cancel that decides it: nil without an error, else the first one queued. */
  ghost predicate AnswersInTurn(s: Session) {
    s.main.Returning? && s.workers != [] && !s.flushErr && !s.parent ==>
      s.main.r == if s.errs == [] then Done else Failed(s.errs[0])
  }

  /** A flush that failed shows: its worker is about to queue the error, or has, or the final flush was returned. */
  ghost predicate FlushErrShows(s: Session) {
    s.flushErr ==>
      s.errs != [] || (exists w: nat :: At(s, w) && s.workers[w].Failing?) || s.main == Returning(Failed(Io))
  }

  lemma ShowsWorker(c: Config, s: Session, st: Step)
    requires FlushErrShows(s) && EnabledWorker(c, s, st)
    ensures FlushErrShows(ApplyWorker(c, s, st))
  {
    var s' := ApplyWorker(c, s, st);
    if s.flushErr && s.errs == [] && s.main != Returning(Failed(Io)) && s'.errs == [] {
      var w: nat :| At(s, w) && s.workers[w].Failing?;
      assert At(s', w) && s'.workers[w].Failing?;
    }
  }

  lemma ShowsFlush(s: Session, st: Step)
    requires Protocol(s) && FlushErrShows(s) && EnabledFlush(s, st)
    ensures FlushErrShows(ApplyFlush(s, st))
  {
    var s' := ApplyFlush(s, st);
    FlushMoves(s, st);
    UnlockFrame(s, st.ok);
    if w: nat :| At(s, w) && s.workers[w].Failing? {
      UnlockMoves(s, st.ok, w);
      assert At(s', w) && s'.workers[w].Failing?;
    }
    if !st.ok && s.lock.owner.Worker? { assert At(s', s.lock.owner.w) && s'.workers[s.lock.owner.w].Failing?; }
  }

  lemma ShowsMain(s: Session, st: Step)
    requires Protocol(s) && FlushErrShows(s) && EnabledMain(s, st)
    ensures FlushErrShows(ApplyMain(s, st))
  {
    var s' := ApplyMain(s, st);
    if s.flushErr && s.errs == [] && s.main != Returning(Failed(Io)) {
      var w: nat :| At(s, w) && s.workers[w].Failing?;
      assert At(s', w) && s'.workers[w].Failing?;
    }
  }

  ghost predicate Answering(w: World) {
    w.proc.Running? ==>
      Protocol(w.proc.s) && FlushErrShows(w.proc.s) && Answers(w.proc.s) && AnswersInTurn(w.proc.s)
  }

  lemma AnsweringSession(c: Config, s: Session, st: Step)
    requires Protocol(s) && FlushErrShows(s) && Answers(s) && AnswersInTurn(s) && EnabledSession(c, s, st)
    ensures var s' := ApplySession(c, s, st); FlushErrShows(s') && Answers(s') && AnswersInTurn(s')
  {
    if EnabledWorker(c, s, st) {
      ShowsWorker(c, s, st);
      AnsweringWorker(c, s, st);
    } else if EnabledFlush(s, st) {
      ShowsFlush(s, st);
      AnsweringFlush(s, st);
    } else {
      ShowsMain(s, st);
      AnsweringMain(s, st);
    }
  }

  lemma AnsweringMain(s: Session, st: Step)
    requires Protocol(s) && FlushErrShows(s) && Answers(s) && AnswersInTurn(s) && EnabledMain(s, st)
    ensures Answers(ApplyMain(s, st)) && AnswersInTurn(ApplyMain(s, st))
  {}

  lemma AnsweringWorker(c: Config, s: Session, st: Step)
    requires Protocol(s) && EnabledWorker(c, s, st)
    ensures !ApplyWorker(c, s, st).main.Returning?
  {
    assert !s.workers[st.w].Exited?;
    assert s.main.Waiting?;
  }

  lemma AnsweringFlush(s: Session, st: Step)
    requires Protocol(s) && Answers(s) && EnabledFlush(s, st)
    ensures Answers(ApplyFlush(s, st)) && AnswersInTurn(ApplyFlush(s, st))
  {
    assert !s.main.Returning?;
    FlushMoves(s, st);
    UnlockFrame(s, st.ok);
  }

  lemma AnsweringStep(c: Config, w: World, st: Step)
    requires Answering(w) && Enabled(c, w, st)
    ensures Answering(Apply(c, w, st))
  {
    WorldProtocolStep(c, w, st);
    if st.Open? {
      PendingFits(LoadState(w.side.live, N(c)));
    } else if !st.Close? && !st.Kill? && !st.Crash? {
      AnsweringSession(c, w.proc.s, st);
    }
  }

  lemma {:induction false} AnsweringRun(c: Config, w: World, steps: seq<Step>, w': World)
    requires Answering(w) && Executes(c, w, steps, w')
    ensures Answering(w')
    decreases |steps|
  {
    if steps != [] {
      AnsweringStep(c, w, steps[0]);
      AnsweringRun(c, Apply(c, w, steps[0]), steps[1..], w');
    }
  }

  /**
   Over all runs, for a call that had something to fetch: nil only with no error queued and no failed flush, and
   nil then if the caller did not cancel; else the first error queued, the cancel or the flush's failure.
   */
  lemma VerdictIsRight(c: Config, w0: World, steps: seq<Step>, w: World)
    requires w0.proc.NotRunning? && Executes(c, w0, steps, w)
    requires w.proc.Running? && w.proc.s.main.Returning? && w.proc.s.workers != []
    ensures var s := w.proc.s;
            && (s.main.r == Done ==> s.errs == [] && !s.flushErr)
            && (s.main.r == ParentCancelled ==> s.parent)
            && (s.main.r.Failed? && s.errs == [] ==> s.flushErr && s.main.r.e == Io)
            && (s.main.r.Failed? && !s.flushErr ==> s.errs != [] && s.main.r.e == s.errs[0])
            && (!s.flushErr && !s.parent && s.errs == [] ==> s.main.r == Done)
            && (!s.flushErr && !s.parent && s.errs != [] ==> s.main.r == Failed(s.errs[0]))
  {
    AnsweringRun(c, w0, steps, w);
  }

  // ---- The caller's cancel comes first ----

  /** Cancelled before it was decided: the answer is the cancel, unless the final flush fails. */
  ghost predicate Cancelled(s: Session) {
    s.parent && (s.main.Returning? ==> s.main.r == ParentCancelled || (s.flushErr && s.main.r == Failed(Io)))
  }

  lemma CancelledWorker(c: Config, s: Session, st: Step)
    requires EnabledWorker(c, s, st)
    ensures var s' := ApplyWorker(c, s, st); (s'.main, s'.parent, s'.flushErr) == (s.main, s.parent, s.flushErr)
  {}

  lemma CancelledFlush(s: Session, st: Step)
    requires EnabledFlush(s, st)
    ensures var s' := ApplyFlush(s, st);
            && s'.parent == s.parent && (s.flushErr ==> s'.flushErr)
            && (s'.main.Returning? ==> s'.main == s.main || (s'.flushErr && s'.main.r == Failed(Io)))
  {
    FlushMoves(s, st);
    UnlockFrame(s, st.ok);
  }

  lemma CancelledStep(c: Config, s: Session, st: Step)
    requires Cancelled(s) && EnabledSession(c, s, st)
    ensures Cancelled(ApplySession(c, s, st))
  {
    if EnabledWorker(c, s, st) { CancelledWorker(c, s, st); }
    else if EnabledFlush(s, st) { CancelledFlush(s, st); }
  }

  lemma {:induction false} CancelComesFirst(c: Config, w: World, steps: seq<Step>, w': World)
    requires w.proc.Running? && Cancelled(w.proc.s)
    requires Executes(c, w, steps, w') && forall st | st in steps :: !st.Open?
    ensures w'.proc.Running? ==> Cancelled(w'.proc.s)
    decreases |steps|
  {
    if steps != [] {
      assert steps[0] in steps;
      var next := Apply(c, w, steps[0]);
      if next.proc.Running? {
        CancelledStep(c, w.proc.s, steps[0]);
        CancelComesFirst(c, next, steps[1..], w');
      } else {
        StaysDown(c, next, steps[1..], w');
      }
    }
  }

  /** A cancelled dispatcher is about to leave its loop: at most up to `limit` is handed out. */
  ghost predicate Stopping(s: Session, limit: int) {
    s.ctx && s.next + (if s.disp.Selecting? then 1 else 0) <= limit
  }

  lemma StoppingStep(c: Config, s: Session, st: Step, limit: int)
    requires Stopping(s, limit) && EnabledSession(c, s, st)
    ensures Stopping(ApplySession(c, s, st), limit)
  {
    if EnabledWorker(c, s, st) {
      WorkerFrame(c, s, st);
      StoppingWorker(c, s, st);
    } else if EnabledFlush(s, st) {
      FlushMoves(s, st);
      UnlockFrame(s, st.ok);
    }
  }

  lemma StoppingWorker(c: Config, s: Session, st: Step)
    requires EnabledWorker(c, s, st)
    ensures ApplyWorker(c, s, st).disp == s.disp && (s.ctx ==> ApplyWorker(c, s, st).ctx)
  {}

  lemma {:induction false} StoppingRun(c: Config, w: World, steps: seq<Step>, w': World, limit: int)
    requires w.proc.Running? && Stopping(w.proc.s, limit) && Executes(c, w, steps, w')
    requires forall st | st in steps :: !st.Open?
    ensures w'.proc.Running? ==> Stopping(w'.proc.s, limit)
    decreases |steps|
  {
    if steps != [] {
      assert steps[0] in steps;
      var next := Apply(c, w, steps[0]);
      if next.proc.Running? {
        StoppingStep(c, w.proc.s, steps[0], limit);
        StoppingRun(c, next, steps[1..], w', limit);
      } else {
        StaysDown(c, next, steps[1..], w');
      }
    }
  }

  /** Once the context of a call is cancelled, at most one more chunk is handed out. */
  lemma OneMoreAfterCancel(c: Config, w: World, steps: seq<Step>, w': World)
    requires w.proc.Running? && w.proc.s.ctx && Executes(c, w, steps, w') && forall st | st in steps :: !st.Open?
    ensures w'.proc.Running? ==> w'.proc.s.next <= w.proc.s.next + 1
  {
    StoppingRun(c, w, steps, w', w.proc.s.next + 1);
  }

  lemma {:induction false} StaysDown(c: Config, w: World, steps: seq<Step>, w': World)
    requires !w.proc.Running? && Executes(c, w, steps, w') && forall st | st in steps :: !st.Open?
    ensures !w'.proc.Running?
    decreases |steps|
  {
    if steps != [] {
      assert steps[0] in steps;
      StaysDown(c, Apply(c, w, steps[0]), steps[1..], w');
    }
  }

  // ---- A call in which nothing goes wrong ----

  /** Steps of one call, none of which goes wrong, up to the call's return. */
  ghost predicate FineSteps(c: Config, w: World, steps: seq<Step>, w': World)
    decreases |steps|
  {
    if steps == [] then w == w'
    else
      && Enabled(c, w, steps[0]) && w.proc.Running?
      && (steps[0].Close? || (EnabledSession(c, w.proc.s, steps[0]) && Fine(c, w.proc.s, steps[0])))
      && FineSteps(c, Apply(c, w, steps[0]), steps[1..], w')
  }

  predicate NotFailing(pc: Pc) { !pc.Failing? && !pc.Cancelling? }

  ghost predicate Well(s: Session) {
    && s.errs == [] && !s.parent && !s.ctx && !s.flushErr
    && (forall w | 0 <= w < |s.workers| :: NotFailing(s.workers[w]))
    && (s.main.Returning? ==> s.main.r == Done)
  }

  lemma WellStep(c: Config, s: Session, st: Step)
    requires Well(s) && EnabledSession(c, s, st) && Fine(c, s, st)
    ensures Well(ApplySession(c, s, st))
  {
    var s' := ApplySession(c, s, st);
    if EnabledWorker(c, s, st) { assert NotFailing(s.workers[st.w]); }
    forall w | 0 <= w < |s'.workers| ensures NotFailing(s'.workers[w]) {
      assert NotFailing(s.workers[w]);
    }
  }

  ghost predicate WellWorld(w: World) {
    match w.proc
    case Running(s) => Well(s)
    case Returned(r, _) => r == Done
    case NotRunning => false
  }

  lemma {:induction false} FineCallReturnsNil(c: Config, w: World, steps: seq<Step>, w': World)
    requires WellWorld(w) && FineSteps(c, w, steps, w')
    ensures WellWorld(w')
    decreases |steps|
  {
    if steps != [] {
      if !steps[0].Close? { WellStep(c, w.proc.s, steps[0]); }
      FineCallReturnsNil(c, Apply(c, w, steps[0]), steps[1..], w');
    }
  }

  lemma {:induction false} FineStepsExecute(c: Config, w: World, steps: seq<Step>, w': World)
    requires FineSteps(c, w, steps, w')
    ensures Executes(c, w, steps, w') && forall st | st in steps :: !st.Open?
    decreases |steps|
  {
    if steps != [] {
      FineStepsExecute(c, Apply(c, w, steps[0]), steps[1..], w');
      assert forall st | st in steps :: st == steps[0] || st in steps[1..];
    }
  }

  lemma FineFirst(c: Config, w: World, st: Step, rest: seq<Step>, w': World)
    requires Enabled(c, w, st) && w.proc.Running? && FineSteps(c, Apply(c, w, st), rest, w')
    requires st.Close? || (EnabledSession(c, w.proc.s, st) && Fine(c, w.proc.s, st))
    ensures FineSteps(c, w, [st] + rest, w')
  {
    assert ([st] + rest)[1..] == rest;
  }

  ghost predicate Completes(c: Config, w: World) {
    exists steps, w' :: FineSteps(c, w, steps, w') && w'.proc.Returned?
  }

  /** From wherever it stands, a call that nothing went wrong in can go on so to its return. */
  lemma {:induction false} FineCallCompletes(c: Config, w: World)
    requires Safe(c, w) && Live(w) && w.proc.Running?
    ensures Completes(c, w)
    decreases Rank(w.proc.s)
  {
    var s := w.proc.s;
    if s.main.Returning? {
      var end := Apply(c, w, Close(true));
      assert FineSteps(c, end, [], end);
      FineFirst(c, w, Close(true), [], end);
    } else {
      SessionCanStep(c, w.data, w.side, s);
      var st :| EnabledSession(c, s, st) && Fine(c, s, st);
      FineStepGoesOn(c, w, st);
      FineCallCompletes(c, Apply(c, w, st));
      CompletesFrom(c, w, st);
    }
  }

  lemma FineStepGoesOn(c: Config, w: World, st: Step)
    requires Safe(c, w) && Live(w) && w.proc.Running? && EnabledSession(c, w.proc.s, st)
    ensures var w' := Apply(c, w, st);
            && Enabled(c, w, st) && Safe(c, w') && Live(w') && w'.proc.Running?
            && 0 <= Rank(w.proc.s) && Rank(w'.proc.s) < Rank(w.proc.s)
  {
    StepSafe(c, w, st);
    LiveStep(c, w, st);
    RankSession(c, w.proc.s, st);
    RankNotNegative(w.proc.s);
  }

  lemma CompletesFrom(c: Config, w: World, st: Step)
    requires Enabled(c, w, st) && w.proc.Running? && EnabledSession(c, w.proc.s, st) && Fine(c, w.proc.s, st)
    requires Completes(c, Apply(c, w, st))
    ensures Completes(c, w)
  {
    var steps, w' :| FineSteps(c, Apply(c, w, st), steps, w') && w'.proc.Returned?;
    FineFirst(c, w, st, steps, w');
  }

  /**
   A download that works returns nil, with the object in the file.  After any history, a call that opens without
   a fault and in which nothing goes wrong can go on to its return; and however it goes on, if it returns, nil is
   what it returns and the object is what is there.
   */
  lemma FineDownloadReturnsNil(c: Config, w0: World, before: seq<Step>, w: World)
    requires Fresh(c, w0) && Executes(c, w0, before, w) && !w.proc.Running?
    ensures Completes(c, Apply(c, w, Open(NoFault, true)))
    ensures forall steps, w' | FineSteps(c, Apply(c, w, Open(NoFault, true)), steps, w') && w'.proc.Returned? ::
              w'.proc.r == Done && w'.data.live == Some(c.src)
  {
    var started := Apply(c, w, Open(NoFault, true));
    FreshSafe(c, w0);
    SafeRun(c, w0, before, w);
    StepSafe(c, w, Open(NoFault, true));
    LiveRun(c, w0, before, w);
    LiveStep(c, w, Open(NoFault, true));
    FineCallCompletes(c, started);
    forall steps, w' | FineSteps(c, started, steps, w') && w'.proc.Returned?
      ensures w'.proc.r == Done && w'.data.live == Some(c.src)
    {
      FineCallReturnsNil(c, started, steps, w');
      FineStepsExecute(c, started, steps, w');
      CallDelivers(c, w0, before, w, NoFault, true, steps, w');
    }
  }
}
