/**
 What one session hands to the next: while no flush has failed, the sidecar is what was last flushed, and a
 session that ends with a chunk missing, or is killed, leaves it there to start from.
 */
module DownloadResume {
  import opened Prelude
  import opened Disk
  import opened Parts
  import opened Download
  import opened DownloadSafety
  import opened DownloadProtocol

  predicate Rewriting(s: Session) { s.lock.Held? && s.lock.stage.AtWrite? }

  /** A session that opened now would start from what this one last flushed. */
  ghost predicate SideIsFlushed(c: Config, side: File, s: Session) {
    !s.flushErr && !Rewriting(s) ==> LoadState(side.live, N(c)) == s.flushed
  }

  /** Past the final flush nothing is left unflushed. */
  ghost predicate EndFlushed(s: Session) {
    (s.main.Deciding? || (s.main.Returning? && !s.flushErr)) ==> s.state == s.flushed
  }

  ghost predicate Resumable(c: Config, w: World) {
    w.proc.Running? ==>
      && |w.proc.s.state| == N(c) && Protocol(w.proc.s)
      && SideIsFlushed(c, w.side, w.proc.s) && EndFlushed(w.proc.s)
  }

  lemma ResumableWorker(c: Config, w: World, st: Step)
    requires Resumable(c, w) && w.proc.Running? && EnabledWorker(c, w.proc.s, st)
    ensures Resumable(c, Apply(c, w, st))
  {
    var s := w.proc.s;
    assert !s.workers[st.w].Exited?;
    assert s.main.Waiting?;
    ProtocolStep(c, s, st);
    WorkerFrame(c, s, st);
  }

  lemma ResumableFlush(c: Config, w: World, st: Step)
    requires Resumable(c, w) && w.proc.Running? && EnabledFlush(w.proc.s, st)
    ensures Resumable(c, Apply(c, w, st))
  {
    var s := w.proc.s;
    ProtocolStep(c, s, st);
    assert !s.main.Deciding? && !s.main.Returning?;
    if st.FlushWrite? && st.ok { assert s.state[..st.k] == s.state; }
  }

  lemma ResumableMain(c: Config, w: World, st: Step)
    requires Resumable(c, w) && w.proc.Running? && EnabledMain(w.proc.s, st)
    ensures Resumable(c, Apply(c, w, st))
  {
    ProtocolStep(c, w.proc.s, st);
  }

  lemma ResumableOpen(c: Config, w: World, fault: OpenFault, statOk: bool)
    ensures Resumable(c, ApplyOpen(c, w, fault, statOk))
  {
    if !OpenFails(w.side.live, N(c), fault) {
      var state, data := LoadState(w.side.live, N(c)), OpenedData(c, w.data, fault, statOk);
      PendingFits(state);
      ProtocolStart(c, state, LiveSize(data), OpenStops(c, w.data, fault, statOk));
    }
  }

  lemma ResumableStep(c: Config, w: World, st: Step)
    requires Resumable(c, w) && Enabled(c, w, st)
    ensures Resumable(c, Apply(c, w, st))
  {
    if st.Open? { ResumableOpen(c, w, st.fault, st.statOk); }
    else if !st.Close? && !st.Kill? && !st.Crash? {
      if EnabledWorker(c, w.proc.s, st) { ResumableWorker(c, w, st); }
      else if EnabledFlush(w.proc.s, st) { ResumableFlush(c, w, st); }
      else { ResumableMain(c, w, st); }
    }
  }

  lemma {:induction false} ResumableRun(c: Config, w: World, steps: seq<Step>, w': World)
    requires Resumable(c, w) && Executes(c, w, steps, w')
    ensures Resumable(c, w')
    decreases |steps|
  {
    if steps != [] {
      ResumableStep(c, w, steps[0]);
      ResumableRun(c, Apply(c, w, steps[0]), steps[1..], w');
    }
  }

  /** The session that opens in `w`, if one does. */
  ghost predicate StartsFrom(c: Config, w: World, fault: OpenFault, statOk: bool, recorded: Bytes) {
    var w' := Apply(c, w, Open(fault, statOk));
    w'.proc.Running? ==>
      && w'.proc.s.state == recorded
      && forall i :: i in w'.proc.s.todo <==> 0 <= i < |recorded| && recorded[i] == 0
  }

  /**
   Nothing flushed is fetched again.  Over any runs: a session that ends with a chunk missing, or is killed,
   no flush having failed and none being half written, leaves the next session to start from exactly what it
   last flushed; and when it ends by itself, that is all it recorded.
   */
  lemma NextSessionResumes(
      c: Config, w0: World, steps: seq<Step>, w: World, st: Step, fault: OpenFault, statOk: bool)
    requires w0.proc.NotRunning? && Executes(c, w0, steps, w) && w.proc.Running? && Enabled(c, w, st)
    requires !w.proc.s.flushErr && !Rewriting(w.proc.s)
    requires st.Kill? || (st.Close? && exists i :: 0 <= i < |w.proc.s.state| && w.proc.s.state[i] == 0)
    ensures StartsFrom(c, Apply(c, w, st), fault, statOk, w.proc.s.flushed)
    ensures st.Close? ==> w.proc.s.flushed == w.proc.s.state
  {
    ResumableRun(c, w0, steps, w);
    PendingMembers(w.proc.s.flushed);
    PendingFits(w.proc.s.flushed);
  }

  /** And after a complete one, its sidecar removed, the next starts from nothing. */
  lemma CompleteStartsOver(
      c: Config, w: World, fault: OpenFault, statOk: bool)
    requires w.proc.Running? && Enabled(c, w, Close(true)) && |w.proc.s.state| == N(c)
    requires forall i | 0 <= i < |w.proc.s.state| :: w.proc.s.state[i] != 0
    ensures Apply(c, w, Close(true)).side.live == None
    ensures forall w' | w' == Apply(c, Apply(c, w, Close(true)), Open(fault, statOk)) && w'.proc.Running? ::
              forall i :: i in w'.proc.s.todo <==> 0 <= i < N(c)
  {
    PendingMembers(LoadState(None, N(c)));
    PendingFits(LoadState(None, N(c)));
  }
}
