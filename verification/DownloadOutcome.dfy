/**
 What a nil return of DownloadResumable means: the file is the source, byte for byte, and stays so across
 a crash, after any history of interrupted sessions and in any completion order.
 */
module DownloadOutcome {
  import opened Prelude
  import opened Disk
  import opened Parts
  import opened Download
  import opened DownloadSafety
  import opened DownloadProtocol

  ghost predicate SizeBounds(c: Config, data: File, openSize: nat) {
    && data.live.Some?
    && openSize <= |data.live.value| <= Max(openSize, Total(c))
    && (c.statNeverFails ==> openSize == Total(c))
  }

  ghost predicate SessionOutcome(c: Config, data: File, s: Session) {
    && (s.workers != [] || s.main == Returning(Done) ==> SizeBounds(c, data, s.openSize))
    && (s.main.Deciding? || s.main == Returning(Done) ==> ClaimsDurable(c, data, s.state))
  }

  /** The call has delivered the object: every chunk durable, nothing written past the old end or the total. */
  ghost predicate Delivered(c: Config, data: File, openSize: nat) {
    SizeBounds(c, data, openSize) && forall i: nat | i < N(c) :: Durable(c, data, i)
  }

  ghost predicate Outcome(c: Config, w: World) {
    match w.proc
    case NotRunning => true
    case Running(s) => SessionOutcome(c, w.data, s)
    case Returned(r, openSize) => r.Done? ==> Delivered(c, w.data, openSize)
  }

  ghost predicate All(c: Config, w: World) { Safe(c, w) && WorldProtocol(w) && Outcome(c, w) }

  lemma OutcomeWrite(c: Config, w: World, v: nat, k: nat)
    requires All(c, w) && w.proc.Running? && EnabledWorker(c, w.proc.s, Write(v, k))
    ensures SessionOutcome(c, DataAfter(c, w.data, w.proc.s, Write(v, k)), ApplyWorker(c, w.proc.s, Write(v, k)))
  {
    var s := w.proc.s;
    assert !s.workers[v].Exited?;
    assert s.main.Waiting? && PcSafe(c, w.data, s.workers[v]);
    WriteKeeps(c, w.data, s.workers[v].i, k);
  }

  lemma OutcomeWorker(c: Config, w: World, st: Step)
    requires All(c, w) && w.proc.Running? && EnabledWorker(c, w.proc.s, st)
    ensures SessionOutcome(c, DataAfter(c, w.data, w.proc.s, st), ApplyWorker(c, w.proc.s, st))
  {
    var s := w.proc.s;
    assert !s.workers[st.w].Exited?;
    assert s.main.Waiting?;
    if st.Write? { OutcomeWrite(c, w, st.w, st.k); }
  }

  lemma OutcomeFlush(c: Config, w: World, st: Step)
    requires All(c, w) && w.proc.Running? && EnabledFlush(w.proc.s, st)
    ensures SessionOutcome(c, DataAfter(c, w.data, w.proc.s, st), ApplyFlush(w.proc.s, st))
  {
    var s := w.proc.s;
    assert !s.main.Deciding? && !s.main.Returning?;
  }

  lemma OutcomeMain(c: Config, w: World, st: Step)
    requires All(c, w) && w.proc.Running? && EnabledMain(w.proc.s, st)
    ensures SessionOutcome(c, w.data, ApplyMain(w.proc.s, st))
  {}

  lemma OutcomeOpen(c: Config, w: World, fault: OpenFault, statOk: bool)
    requires All(c, w) && Enabled(c, w, Open(fault, statOk))
    ensures Outcome(c, Apply(c, w, Open(fault, statOk)))
  {
    var n := N(c);
    if !OpenFails(w.side.live, n, fault) {
      var state := LoadState(w.side.live, n);
      LoadedStateTrue(c, w.data, w.side);
      OpenKeeps(c, w.data, fault, statOk);
    }
  }

  lemma OutcomeClose(c: Config, w: World, removeOk: bool)
    requires All(c, w) && Enabled(c, w, Close(removeOk))
    ensures Outcome(c, Apply(c, w, Close(removeOk)))
  {}

  lemma OutcomeSession(c: Config, w: World, st: Step)
    requires All(c, w) && w.proc.Running? && EnabledSession(c, w.proc.s, st)
    ensures SessionOutcome(c, DataAfter(c, w.data, w.proc.s, st), ApplySession(c, w.proc.s, st))
  {
    if EnabledWorker(c, w.proc.s, st) { OutcomeWorker(c, w, st); }
    else if EnabledFlush(w.proc.s, st) { OutcomeFlush(c, w, st); }
    else { OutcomeMain(c, w, st); }
  }

  lemma OutcomeStep(c: Config, w: World, st: Step)
    requires All(c, w) && Enabled(c, w, st)
    ensures Outcome(c, Apply(c, w, st))
  {
    if st.Open? { OutcomeOpen(c, w, st.fault, st.statOk); }
    else if st.Close? { OutcomeClose(c, w, st.removeOk); }
    else if !st.Kill? && !st.Crash? { OutcomeSession(c, w, st); }
  }

  lemma {:induction false} OutcomeRun(c: Config, w: World, steps: seq<Step>, w': World)
    requires All(c, w) && Executes(c, w, steps, w')
    ensures All(c, w')
    decreases |steps|
  {
    if steps != [] {
      StepSafe(c, w, steps[0]);
      WorldProtocolStep(c, w, steps[0]);
      OutcomeStep(c, w, steps[0]);
      OutcomeRun(c, Apply(c, w, steps[0]), steps[1..], w');
    }
  }

  /** Good chunks tile the source. */
  lemma ChunksMakeTheSource(c: Config, b: Bytes)
    requires forall i: nat | i < N(c) :: GoodChunk(c, b, i)
    ensures |b| >= Total(c) && b[..Total(c)] == c.src
  {
    if Total(c) > 0 {
      ChunksTile(c, Total(c) - 1);
      assert GoodChunk(c, b, (Total(c) - 1) / CHUNK);
      forall p: nat | p < Total(c) ensures b[p] == c.src[p] {
        ChunksTile(c, p);
        assert GoodChunk(c, b, p / CHUNK);
      }
    }
  }

  /** The file is the object, or starts with it, and a crash leaves it so. */
  ghost predicate HasTheSource(c: Config, data: File, openSize: nat) {
    && data.live.Some? && Total(c) <= |data.live.value| && data.live.value[..Total(c)] == c.src
    && (data.live.value == c.src <==> openSize <= Total(c))
    && (c.statNeverFails ==> data.live.value == c.src)
  }

  ghost predicate SourceSurvives(c: Config, data: File) {
    forall d | Survives(data, d) && Total(c) > 0 ::
      d.Some? && Total(c) <= |d.value| && d.value[..Total(c)] == c.src
  }

  lemma DeliveredIsSource(c: Config, w: World)
    requires All(c, w) && w.proc.Returned? && w.proc.r == Done
    ensures HasTheSource(c, w.data, w.proc.openSize) && SourceSurvives(c, w.data)
  {
    var live := w.data.live.value;
    forall i: nat | i < N(c) ensures GoodChunk(c, live, i) {
      assert Durable(c, w.data, i);
    }
    ChunksMakeTheSource(c, live);
    assert |live| == Total(c) ==> live == live[..Total(c)];
    forall d | Survives(w.data, d) && Total(c) > 0
      ensures d.Some? && Total(c) <= |d.value| && d.value[..Total(c)] == c.src
    {
      assert Durable(c, w.data, 0);
      DurableSurvives(c, w.data, d, 0);
      forall i: nat | i < N(c) ensures GoodChunk(c, d.value, i) {
        DurableSurvives(c, w.data, d, i);
      }
      ChunksMakeTheSource(c, d.value);
    }
  }

  /**
   Download correctness.  When DownloadResumable has returned nil, the file starts with the whole source;
   it is the source exactly when the file was no longer than the source once opened, which Stat working
   ensures; and any content a crash could leave still starts with the whole source.
   */
  lemma DownloadCorrect(c: Config, w0: World, steps: seq<Step>, w: World)
    requires Fresh(c, w0) && Executes(c, w0, steps, w) && w.proc.Returned? && w.proc.r == Done
    ensures HasTheSource(c, w.data, w.proc.openSize) && SourceSurvives(c, w.data)
  {
    FreshSafe(c, w0);
    OutcomeRun(c, w0, steps, w);
    DeliveredIsSource(c, w);
  }

  lemma BlindOpening(c: Config, w: World)
    requires w.side.live.Some? && |w.side.live.value| == N(c) && AllDone(w.side.live.value) && w.data.live.Some?
    ensures var w' := ApplyOpen(c, w, NoFault, false);
            w'.proc.Running? && w'.proc.s.main == Returning(Done) && w'.data.live == w.data.live
  {
    PendingIsExact(w.side.live.value);
  }

  /** A failing Stat can leave a tail: from a true start the call returns nil over a file that is not the source. */
  lemma StatFailureLeavesATail()
    ensures exists c, w0, steps, w ::
              && Fresh(c, w0) && Executes(c, w0, steps, w) && w.proc.Returned? && w.proc.r == Done
              && w.data.live.Some? && w.data.live.value != c.src
  {
    var c := Config([7], 1, false);
    var w0 := World(Settled(Some([7, 2])), Settled(Some([1])), NotRunning);
    assert N(c) == 1 && GoodChunk(c, [7, 2], 0);
    BlindOpening(c, w0);
    TwoSteps(c, w0, Open(NoFault, false), Close(true));
    assert Fresh(c, w0);
  }

  /** A call in two steps. */
  lemma TwoSteps(c: Config, w: World, a: Step, b: Step)
    requires Enabled(c, w, a) && Enabled(c, Apply(c, w, a), b)
    ensures Executes(c, w, [a] + ([b] + []), Apply(c, Apply(c, w, a), b))
  {
    LastStep(c, Apply(c, w, a), b, Apply(c, Apply(c, w, a), b));
    FirstThen(c, w, a, [b] + [], Apply(c, Apply(c, w, a), b));
  }

  // ---- The same condition, told before the call ----

  /** Opening leaves a file no longer than the object exactly when Stat works or there was no longer one. */
  lemma OpenSizeFits(c: Config, w: World, fault: OpenFault, statOk: bool)
    requires ApplyOpen(c, w, fault, statOk).proc.Running? && !OpenStops(c, w.data, fault, statOk)
    ensures ApplyOpen(c, w, fault, statOk).proc.s.openSize <= Total(c) <==> statOk || LiveSize(w.data) <= Total(c)
  {}

  /** Within one call, and after it, `openSize` is what it was when the call opened the file. */
  ghost predicate OpenedAt(w: World, size: nat) {
    match w.proc
    case NotRunning => true
    case Running(s) => s.openSize == size
    case Returned(r, openSize) => r.Done? ==> openSize == size
  }

  lemma {:induction false} OpenSizeStays(c: Config, w: World, steps: seq<Step>, w': World, size: nat)
    requires OpenedAt(w, size) && Executes(c, w, steps, w') && forall st | st in steps :: !st.Open?
    ensures OpenedAt(w', size)
    decreases |steps|
  {
    if steps != [] {
      assert steps[0] in steps;
      OpenSizeStays(c, Apply(c, w, steps[0]), steps[1..], w', size);
    }
  }

  lemma {:induction false} Joined(c: Config, w: World, a: seq<Step>, w1: World, b: seq<Step>, w': World)
    requires Executes(c, w, a, w1) && Executes(c, w1, b, w')
    ensures Executes(c, w, a + b, w')
    decreases |a|
  {
    if a == [] {
      assert a + b == b;
    } else {
      assert (a + b)[1..] == a[1..] + b;
      Joined(c, Apply(c, w, a[0]), a[1..], w1, b, w');
    }
  }

  /**
   Whatever happened before, a call that returns nil leaves the object and nothing else exactly when Stat
   works at its opening, or the file it found was no longer than the object.
   */
  lemma CallDelivers(
      c: Config, w0: World, before: seq<Step>, w1: World, fault: OpenFault, statOk: bool, after: seq<Step>, w: World)
    requires Fresh(c, w0) && Executes(c, w0, before, w1) && Enabled(c, w1, Open(fault, statOk))
    requires Executes(c, Apply(c, w1, Open(fault, statOk)), after, w) && forall st | st in after :: !st.Open?
    requires !OpenStops(c, w1.data, fault, statOk) && w.proc.Returned? && w.proc.r == Done
    ensures w.data.live.Some? && (w.data.live.value == c.src <==> statOk || LiveSize(w1.data) <= Total(c))
  {
    var started := Apply(c, w1, Open(fault, statOk));
    FirstThen(c, w1, Open(fault, statOk), after, w);
    Joined(c, w0, before, w1, [Open(fault, statOk)] + after, w);
    DownloadCorrect(c, w0, before + ([Open(fault, statOk)] + after), w);
    if started.proc.Running? {
      OpenSizeFits(c, w1, fault, statOk);
      OpenSizeStays(c, started, after, w, started.proc.s.openSize);
    } else {
      ReturnStays(c, started, after, w);
    }
  }

  /** Without another Open a call that has returned stays as it is, or is forgotten. */
  lemma {:induction false} ReturnStays(c: Config, w: World, steps: seq<Step>, w': World)
    requires !w.proc.Running? && (w.proc.Returned? ==> w.proc.r != Done)
    requires Executes(c, w, steps, w') && forall st | st in steps :: !st.Open?
    ensures !w'.proc.Running? && (w'.proc.Returned? ==> w'.proc.r != Done)
    decreases |steps|
  {
    if steps != [] {
      assert steps[0] in steps;
      ReturnStays(c, Apply(c, w, steps[0]), steps[1..], w');
    }
  }

  // ---- What a call makes of a sidecar that is full already ----

  function Found(found: Option<Bytes>, side: Bytes): World {
    World(Settled(found), Settled(Some(side)), NotRunning)
  }

  /** Nil, over the old content cut or extended to the object's size; the sidecar is unlinked. */
  predicate Believed(c: Config, found: Option<Bytes>, side: Bytes, w: World) {
    && w.proc == Returned(Done, Total(c)) && w.side == Remove(Settled(Some(side)))
    && w.data.live == Some(Resize(if found.Some? then found.value else [], Total(c)))
  }

  const BELIEVING: seq<Step> := [Open(NoFault, true)] + ([Close(true)] + [])

  /**
   A full sidecar is believed: nil, over whatever the file holds once cut or extended to size.  Should the
   file be deleted and its sidecar not, that is zeros.
   */
  lemma FullSidecarIsBelieved(c: Config, found: Option<Bytes>, side: Bytes)
    requires |side| == N(c) && AllDone(side)
    ensures exists w :: Executes(c, Found(found, side), BELIEVING, w) && Believed(c, found, side, w)
  {
    var was := if found.Some? then found.value else [];
    PendingIsExact(side);
    if |was| == Total(c) { assert Resize(was, Total(c)) == was; }
    TwoSteps(c, Found(found, side), Open(NoFault, true), Close(true));
  }

  /** A call that stops in truncating a longer file has loaded the sidecar all the same. */
  lemma StoppedOpening(c: Config, w: World)
    requires w.side.live.Some? && |w.side.live.value| == N(c) && AllDone(w.side.live.value)
    requires w.data.live.Some? && |w.data.live.value| != Total(c)
    ensures var w' := ApplyOpen(c, w, TruncateFails, true);
            w'.proc.Running? && w'.side == w.side
            && (w'.proc.s.main, w'.proc.s.state) == (Returning(Failed(Io)), w.side.live.value)
  {
    PendingIsExact(w.side.live.value);
  }

  /** Then Close drops it, though the call fails: every chunk is recorded. */
  lemma ErrorReturnDropsSidecar(c: Config, found: Bytes, side: Bytes)
    requires |side| == N(c) && AllDone(side) && |found| > Total(c)
    ensures exists w ::
              && Executes(c, Found(Some(found), side), [Open(TruncateFails, true)] + ([Close(true)] + []), w)
              && w.proc.Returned? && w.proc.r == Failed(Io) && w.side.live == None
  {
    StoppedOpening(c, Found(Some(found), side));
    TwoSteps(c, Found(Some(found), side), Open(TruncateFails, true), Close(true));
  }
}
