/** How much is unflushed, and what the progress callback is told. */
module DownloadProgress {
  import opened Prelude
  import opened Parts
  import opened Download
  import opened DownloadSafety
  import opened DownloadProtocol

  // ---- Chunks marked but not yet flushed ----

  function Unflushed(state: Bytes, flushed: Bytes): nat
    requires |state| == |flushed|
  {
    if state == [] then 0
    else Unflushed(state[1..], flushed[1..]) + if state[0] != flushed[0] then 1 else 0
  }

  lemma {:induction false} UnflushedMark(state: Bytes, flushed: Bytes, i: nat)
    requires |state| == |flushed| && i < |state| && state[i] == flushed[i] && state[i] != 1
    ensures Unflushed(state[i := 1], flushed) == Unflushed(state, flushed) + 1
  {
    if i > 0 {
      UnflushedMark(state[1..], flushed[1..], i - 1);
      assert state[i := 1][1..] == state[1..][i - 1 := 1];
    } else {
      assert state[i := 1][1..] == state[1..];
    }
  }

  lemma {:induction false} NothingUnflushed(state: Bytes)
    ensures Unflushed(state, state) == 0
  {
    if state != [] { NothingUnflushed(state[1..]); }
  }

  predicate Marked(pc: Pc) { pc.Checking? || pc.Flushing? }

  /** Workers that have marked their chunk and not yet got past maybeFlush. */
  function Between(ws: seq<Pc>): nat {
    if ws == [] then 0 else Between(ws[1..]) + if Marked(ws[0]) then 1 else 0
  }

  lemma {:induction false} BetweenMove(ws: seq<Pc>, w: nat, pc: Pc)
    requires w < |ws|
    ensures Between(ws[w := pc]) == Between(ws)
                                    - (if Marked(ws[w]) then 1 else 0)
                                    + (if Marked(pc) then 1 else 0)
  {
    if w > 0 {
      BetweenMove(ws[1..], w - 1, pc);
      assert ws[w := pc][1..] == ws[1..][w - 1 := pc];
    } else {
      assert ws[w := pc][1..] == ws[1..];
    }
  }

  ghost predicate DirtyExact(s: Session) {
    && |s.flushed| == |s.state|
    && (forall i | 0 <= i < |s.state| :: s.state[i] == s.flushed[i] || s.state[i] == 1)
    && s.dirty == Unflushed(s.state, s.flushed)
  }

  ghost predicate DirtyBounded(s: Session) {
    !s.flushErr ==> s.dirty <= SYNC_EVERY - 1 + Between(s.workers)
  }

  /** A worker moves and the ledger stays: it is past maybeFlush only when there was nothing to flush yet. */
  lemma DirtyMove(s: Session, s': Session, w: nat)
    requires DirtyExact(s) && DirtyBounded(s)
    requires At(s, w) && At(s', w) && s'.workers == s.workers[w := s'.workers[w]]
    requires s'.state == s.state && s'.flushed == s.flushed && s'.dirty == s.dirty && s'.flushErr == s.flushErr
    requires Marked(s'.workers[w]) || !Marked(s.workers[w]) || s.dirty < SYNC_EVERY
    ensures DirtyExact(s') && DirtyBounded(s')
  {
    BetweenMove(s.workers, w, s'.workers[w]);
  }

  lemma DirtyMark(c: Config, s: Session, w: nat)
    requires DirtyExact(s) && DirtyBounded(s) && EnabledWorker(c, s, Mark(w)) && s.workers[w].i < |s.state|
    ensures DirtyExact(ApplyWorker(c, s, Mark(w))) && DirtyBounded(ApplyWorker(c, s, Mark(w)))
  {
    BetweenMove(s.workers, w, Checking(s.workers[w].i));
    if s.state[s.workers[w].i] != 1 { UnflushedMark(s.state, s.flushed, s.workers[w].i); }
  }

  lemma WorkerFlushesFirst(c: Config, s: Session, st: Step)
    requires EnabledWorker(c, s, st) && !st.Mark?
    ensures Marked(ApplyWorker(c, s, st).workers[st.w]) || !Marked(s.workers[st.w]) || s.dirty < SYNC_EVERY
  {}

  lemma DirtyWorker(c: Config, s: Session, st: Step)
    requires DirtyExact(s) && DirtyBounded(s) && EnabledWorker(c, s, st)
    requires st.Mark? ==> s.workers[st.w].i < |s.state|
    ensures DirtyExact(ApplyWorker(c, s, st)) && DirtyBounded(ApplyWorker(c, s, st))
  {
    if st.Mark? {
      DirtyMark(c, s, st.w);
    } else {
      WorkerFrame(c, s, st);
      WorkerFlushesFirst(c, s, st);
      DirtyMove(s, ApplyWorker(c, s, st), st.w);
    }
  }

  lemma DirtyUnlock(s: Session, ok: bool)
    requires DirtyExact(s) && s.lock.Held?
    ensures DirtyExact(Unlock(s, ok)) && DirtyBounded(Unlock(s, ok))
  {
    UnlockFrame(s, ok);
    NothingUnflushed(s.state);
  }

  lemma DirtyFlush(s: Session, st: Step)
    requires DirtyExact(s) && DirtyBounded(s) && EnabledFlush(s, st)
    ensures DirtyExact(ApplyFlush(s, st)) && DirtyBounded(ApplyFlush(s, st))
  {
    FlushMoves(s, st);
    DirtyUnlock(s, st.ok);
  }

  lemma DirtyMain(s: Session, st: Step)
    requires DirtyExact(s) && DirtyBounded(s) && EnabledMain(s, st)
    ensures DirtyExact(ApplyMain(s, st)) && DirtyBounded(ApplyMain(s, st))
  {
    if st.Dispatch? { BetweenMove(s.workers, st.w, Fetching(s.todo[s.next])); }
  }

  // ---- Bytes counted ----

  function CountedBytes(total: nat, counted: seq<bool>): int {
    if counted == [] then 0
    else
      var k := |counted| - 1;
      CountedBytes(total, counted[..k]) + if counted[k] then Len(total, k) else 0
  }

  lemma {:induction false} CountOne(total: nat, counted: seq<bool>, i: nat)
    requires i < |counted| && !counted[i]
    ensures CountedBytes(total, counted[i := true]) == CountedBytes(total, counted) + Len(total, i)
  {
    var k := |counted| - 1;
    if i < k {
      CountOne(total, counted[..k], i);
      assert counted[i := true][..k] == counted[..k][i := true];
    } else {
      assert counted[i := true][..k] == counted[..k];
    }
  }

  /** What is missing from a full count is at least one byte for a missing chunk, and nothing otherwise. */
  lemma {:induction false} CountAtMost(total: nat, counted: seq<bool>)
    requires |counted| <= ChunkCount(total)
    ensures CountedBytes(total, counted) <= Min(|counted| * CHUNK, total)
    ensures (forall i | 0 <= i < |counted| :: counted[i]) ==>
              CountedBytes(total, counted) == Min(|counted| * CHUNK, total)
  {
    if counted != [] { CountAtMost(total, counted[..|counted| - 1]); }
  }

  function NonPending(state: Bytes): (r: seq<bool>)
    ensures |r| == |state|
  {
    seq(|state|, i requires 0 <= i < |state| => state[i] != 0)
  }

  /** While only whole chunks are concerned, chunks not pending and bytes counted agree. */
  lemma {:induction false} WholeChunks(total: nat, state: Bytes)
    requires |state| <= ChunkCount(total) && (|state| == ChunkCount(total) ==> state == [])
    ensures (|state| - |PendingOf(state)|) * CHUNK == CountedBytes(total, NonPending(state))
  {
    if state != [] {
      var k := |state| - 1;
      WholeChunks(total, state[..k]);
      assert NonPending(state)[..k] == NonPending(state[..k]);
    }
  }

  /** How far the first count overshoots: the last chunk counts as a full one when it was already there. */
  function Slack(total: nat, resumed: Bytes): int {
    if resumed != [] && resumed[|resumed| - 1] != 0 then CHUNK - Len(total, |resumed| - 1) else 0
  }

  /** The cap on the first count fires only when nothing is pending. */
  lemma CapOnlyWhenDone(total: nat, state: Bytes)
    requires |state| == ChunkCount(total) && (|state| - |PendingOf(state)|) * CHUNK > total
    ensures AllDone(state)
  {
    PendingFits(state);
    PendingIsExact(state);
  }

  lemma FirstCount(total: nat, state: Bytes)
    requires |state| == ChunkCount(total) && PendingOf(state) != []
    ensures FirstCounter(total, |state|, |PendingOf(state)|)
            == CountedBytes(total, NonPending(state)) + Slack(total, state)
    ensures 0 <= Slack(total, state) < CHUNK
  {
    PendingFits(state);
    PendingIsExact(state);
    if (|state| - |PendingOf(state)|) * CHUNK > total { CapOnlyWhenDone(total, state); }
    var k := |state| - 1;
    WholeChunks(total, state[..k]);
    assert NonPending(state)[..k] == NonPending(state[..k]);
  }

  // ---- No chunk is counted twice ----

  /** The chunk a worker has been handed and not yet counted. */
  predicate HasChunk(pc: Pc) {
    pc.Fetching? || pc.Writing? || pc.Marking? || pc.Checking? || pc.Flushing? || pc.Reporting?
  }

  function Holding(pc: Pc): Option<nat> { if HasChunk(pc) then Some(pc.i) else None }

  ghost predicate Distinct(s: Session) {
    forall v, w | 0 <= v < w < |s.workers| ::
      Holding(s.workers[v]).None? || Holding(s.workers[v]) != Holding(s.workers[w])
  }

  ghost predicate Uncounted(s: Session, pc: Pc) {
    Holding(pc).Some? ==>
      var i := Holding(pc).value;
      i < |s.counted| && !s.counted[i] && forall p | s.next <= p < |s.todo| :: s.todo[p] != i
  }

  ghost predicate Handout(s: Session) {
    && Ascending(s.todo) && s.next <= |s.todo|
    && Distinct(s)
    && (forall w | 0 <= w < |s.workers| :: Uncounted(s, s.workers[w]))
    && forall p | s.next <= p < |s.todo| :: s.todo[p] < |s.counted| && !s.counted[s.todo[p]]
  }

  /** A worker moves on, keeping its chunk or letting it go, and perhaps counting the one it let go. */
  lemma HandoutMove(s: Session, s': Session, w: nat)
    requires Handout(s) && At(s, w) && At(s', w) && s'.workers == s.workers[w := s'.workers[w]]
    requires s'.todo == s.todo && s'.next == s.next
    requires Holding(s'.workers[w]).None? || Holding(s'.workers[w]) == Holding(s.workers[w])
    requires
      || s'.counted == s.counted
      || (Holding(s.workers[w]).Some? && Holding(s'.workers[w]).None? && Holding(s.workers[w]).value < |s.counted|
          && s'.counted == s.counted[Holding(s.workers[w]).value := true])
    ensures Handout(s')
  {
    assert Uncounted(s, s.workers[w]);
    forall v | 0 <= v < |s'.workers| ensures Uncounted(s', s'.workers[v]) {
      assert Uncounted(s, s.workers[v]);
      if v < w {
        assert Holding(s.workers[v]).None? || Holding(s.workers[v]) != Holding(s.workers[w]);
      } else if w < v {
        assert Holding(s.workers[w]).None? || Holding(s.workers[w]) != Holding(s.workers[v]);
      }
    }
  }

  /** A worker keeps its chunk or lets it go. */
  lemma WorkerHolds(c: Config, s: Session, st: Step)
    requires EnabledWorker(c, s, st)
    ensures var pc, pc' := s.workers[st.w], ApplyWorker(c, s, st).workers[st.w];
            HasChunk(pc') ==> HasChunk(pc) && pc'.i == pc.i
  {
    var pc := s.workers[st.w];
    if !HasChunk(pc) {
      assert st.Leave? || st.PushErr? || st.CancelCtx?;
    } else if pc.Writing? || pc.Reporting? {
      assert st.Write? || st.Report?;
    } else {
      assert st.FetchOk? || st.FetchFail? || st.Mark? || st.MaybeFlush?;
    }
  }

  lemma HandoutWorker(c: Config, s: Session, st: Step)
    requires Handout(s) && EnabledWorker(c, s, st)
    ensures Handout(ApplyWorker(c, s, st))
  {
    assert Uncounted(s, s.workers[st.w]);
    if st.Report? {
      HandoutMove(s, ApplyWorker(c, s, st), st.w);
    } else {
      WorkerFrame(c, s, st);
      WorkerHolds(c, s, st);
      HandoutMove(s, ApplyWorker(c, s, st), st.w);
    }
  }

  lemma HandoutSame(s: Session, s': Session)
    requires Handout(s) && s'.workers == s.workers && s'.counted == s.counted
    requires s'.todo == s.todo && s'.next == s.next
    ensures Handout(s')
  {
    forall w | 0 <= w < |s'.workers| ensures Uncounted(s', s'.workers[w]) {
      assert Uncounted(s, s.workers[w]);
    }
  }

  lemma HandoutUnlock(s: Session, ok: bool)
    requires Handout(s) && LockShape(s) && s.lock.Held?
    ensures Handout(Unlock(s, ok))
  {
    if s.lock.owner.Worker? { HandoutMove(s, Unlock(s, ok), s.lock.owner.w); }
    else { HandoutSame(s, Unlock(s, ok)); }
  }

  lemma HandoutFlush(s: Session, st: Step)
    requires Handout(s) && LockShape(s) && EnabledFlush(s, st)
    ensures Handout(ApplyFlush(s, st))
  {
    FlushMoves(s, st);
    if ApplyFlush(s, st) == Unlock(s, st.ok) { HandoutUnlock(s, st.ok); }
    else { HandoutSame(s, ApplyFlush(s, st)); }
  }

  lemma HandoutMain(s: Session, st: Step)
    requires Handout(s) && EnabledMain(s, st)
    ensures Handout(ApplyMain(s, st))
  {
    var s' := ApplyMain(s, st);
    forall w | 0 <= w < |s'.workers| ensures Uncounted(s', s'.workers[w]) {
      assert Uncounted(s, s.workers[w]);
    }
  }

  ghost predicate CounterExact(c: Config, s: Session) {
    && |s.counted| == |s.state| == N(c)
    && 0 <= Slack(Total(c), s.resumed) < CHUNK
    && s.counter == CountedBytes(Total(c), s.counted) + Slack(Total(c), s.resumed)
  }

  /** One chunk reported: what the callback is handed, against the chunks counted so far. */
  lemma ReportStep(c: Config, s: Session, w: nat)
    requires Handout(s) && CounterExact(c, s) && EnabledWorker(c, s, Report(w))
    ensures var s' := ApplyWorker(c, s, Report(w));
            && CounterExact(c, s') && s.counter < s'.counter
            && CountedBytes(Total(c), s'.counted) <= Reported(c, s') <= Total(c)
            && Reported(c, s') <= CountedBytes(Total(c), s'.counted) + CHUNK - 1
            && ((forall i | 0 <= i < N(c) :: s'.counted[i]) ==> Reported(c, s') == Total(c))
  {
    assert Uncounted(s, s.workers[w]);
    var i := s.workers[w].i;
    ChunkInRange(c, i);
    CountOne(Total(c), s.counted, i);
    CountAtMost(Total(c), s.counted[i := true]);
  }

  // ---- Over whole runs ----

  ghost predicate Tracked(c: Config, s: Session) {
    && DirtyExact(s) && DirtyBounded(s) && Handout(s)
    && (s.todo != [] ==> CounterExact(c, s))
    && (s.todo == [] ==> s.workers == [])
  }

  ghost predicate TrackedWorld(c: Config, w: World) {
    Safe(c, w) && WorldProtocol(w) && (w.proc.Running? ==> Tracked(c, w.proc.s))
  }

  lemma TrackedWorker(c: Config, s: Session, st: Step)
    requires Tracked(c, s) && EnabledWorker(c, s, st)
    requires st.Mark? ==> s.workers[st.w].i < |s.state|
    ensures Tracked(c, ApplyWorker(c, s, st))
  {
    DirtyWorker(c, s, st);
    HandoutWorker(c, s, st);
    WorkerFrame(c, s, st);
    if st.Report? { ReportStep(c, s, st.w); }
  }

  lemma CountedFlush(c: Config, s: Session, st: Step)
    requires EnabledFlush(s, st)
    requires (s.todo != [] ==> CounterExact(c, s)) && (s.todo == [] ==> s.workers == [])
    ensures var t := ApplyFlush(s, st); (t.todo != [] ==> CounterExact(c, t)) && (t.todo == [] ==> t.workers == [])
  {
    FlushMoves(s, st);
    UnlockFrame(s, st.ok);
  }

  lemma TrackedFlush(c: Config, s: Session, st: Step)
    requires Tracked(c, s) && LockShape(s) && EnabledFlush(s, st)
    ensures Tracked(c, ApplyFlush(s, st))
  {
    DirtyFlush(s, st);
    HandoutFlush(s, st);
    CountedFlush(c, s, st);
  }

  lemma TrackedMain(c: Config, s: Session, st: Step)
    requires Tracked(c, s) && EnabledMain(s, st)
    ensures Tracked(c, ApplyMain(s, st))
  {
    DirtyMain(s, st);
    HandoutMain(s, st);
  }

  lemma TrackedSession(c: Config, s: Session, st: Step)
    requires Tracked(c, s) && LockShape(s) && EnabledSession(c, s, st)
    requires st.Mark? && EnabledWorker(c, s, st) ==> s.workers[st.w].i < |s.state|
    ensures Tracked(c, ApplySession(c, s, st))
  {
    if EnabledWorker(c, s, st) { TrackedWorker(c, s, st); }
    else if EnabledFlush(s, st) { TrackedFlush(c, s, st); }
    else { TrackedMain(c, s, st); }
  }

  lemma HandoutOpening(c: Config, state: Bytes, size: nat, stopped: bool)
    requires |state| == N(c) && |PendingOf(state)| <= |state|
    ensures Handout(NewSession(c, state, size, stopped))
  {
    var s := NewSession(c, state, size, stopped);
    PendingIsExact(state);
    assert s.counted == NonPending(state);
    forall p | 0 <= p < |s.todo| ensures s.todo[p] < |s.counted| && !s.counted[s.todo[p]] {
      assert s.todo[p] in s.todo;
    }
  }

  lemma TrackedOpen(c: Config, state: Bytes, size: nat, stopped: bool)
    requires |state| == N(c) && |PendingOf(state)| <= |state|
    ensures Tracked(c, NewSession(c, state, size, stopped))
  {
    var s := NewSession(c, state, size, stopped);
    HandoutOpening(c, state, size, stopped);
    NothingUnflushed(state);
    assert s.counted == NonPending(state);
    if s.todo != [] { FirstCount(Total(c), state); }
  }

  lemma TrackedSessionStep(c: Config, w: World, st: Step)
    requires TrackedWorld(c, w) && w.proc.Running? && EnabledSession(c, w.proc.s, st)
    ensures Tracked(c, ApplySession(c, w.proc.s, st))
  {
    MarksInRange(c, w, st);
    TrackedSession(c, w.proc.s, st);
  }

  lemma TrackedOpenStep(c: Config, w: World, st: Step)
    requires Enabled(c, w, st) && st.Open?
    ensures Apply(c, w, st).proc.Running? ==> Tracked(c, Apply(c, w, st).proc.s)
  {
    var state := LoadState(w.side.live, N(c));
    PendingFits(state);
    TrackedOpen(
      c, state, LiveSize(OpenedData(c, w.data, st.fault, st.statOk)), OpenStops(c, w.data, st.fault, st.statOk));
  }

  lemma TrackedStep(c: Config, w: World, st: Step)
    requires TrackedWorld(c, w) && Enabled(c, w, st)
    ensures Apply(c, w, st).proc.Running? ==> Tracked(c, Apply(c, w, st).proc.s)
  {
    if st.Open? {
      TrackedOpenStep(c, w, st);
    } else if !st.Close? && !st.Kill? && !st.Crash? {
      TrackedSessionStep(c, w, st);
    }
  }

  /** A worker that flushes found at least 16 chunks unflushed; nobody marks one until it is done. */
  ghost predicate Due(s: Session) { s.lock.Held? && s.lock.owner.Worker? ==> s.dirty >= 16 }

  lemma DueSession(c: Config, s: Session, st: Step)
    requires Due(s) && EnabledSession(c, s, st)
    ensures Due(ApplySession(c, s, st))
  {
    if EnabledWorker(c, s, st) {
      if st.MaybeFlush? { DueWorker(c, s, st); } else { DueElsewhere(c, s, st); }
    } else if EnabledFlush(s, st) {
      FlushMoves(s, st);
      UnlockFrame(s, st.ok);
    }
  }

  lemma DueWorker(c: Config, s: Session, st: Step)
    requires EnabledWorker(c, s, st) && st.MaybeFlush?
    ensures Due(ApplyWorker(c, s, st))
  {}

  lemma DueElsewhere(c: Config, s: Session, st: Step)
    requires Due(s) && EnabledWorker(c, s, st) && !st.MaybeFlush?
    ensures Due(ApplyWorker(c, s, st))
  {}

  ghost predicate FlushDue(w: World) { w.proc.Running? ==> Due(w.proc.s) }

  lemma FlushDueStep(c: Config, w: World, st: Step)
    requires FlushDue(w) && Enabled(c, w, st)
    ensures FlushDue(Apply(c, w, st))
  {
    if st.Open? {
      PendingFits(LoadState(w.side.live, N(c)));
    } else if !st.Close? && !st.Kill? && !st.Crash? {
      DueSession(c, w.proc.s, st);
    }
  }

  lemma {:induction false} FlushOnlyWhenDue(c: Config, w: World, steps: seq<Step>, w': World)
    requires FlushDue(w) && Executes(c, w, steps, w')
    ensures FlushDue(w')
    decreases |steps|
  {
    if steps != [] {
      FlushDueStep(c, w, steps[0]);
      FlushOnlyWhenDue(c, Apply(c, w, steps[0]), steps[1..], w');
    }
  }

  lemma MarksInRange(c: Config, w: World, st: Step)
    requires Safe(c, w) && w.proc.Running? && EnabledSession(c, w.proc.s, st)
    ensures st.Mark? && EnabledWorker(c, w.proc.s, st) ==> w.proc.s.workers[st.w].i < |w.proc.s.state|
  {
    if st.Mark? { assert PcSafe(c, w.data, w.proc.s.workers[st.w]); }
  }

  lemma {:induction false} TrackedRun(c: Config, w: World, steps: seq<Step>, w': World)
    requires TrackedWorld(c, w) && Executes(c, w, steps, w')
    ensures TrackedWorld(c, w')
    decreases |steps|
  {
    if steps != [] {
      StepSafe(c, w, steps[0]);
      WorldProtocolStep(c, w, steps[0]);
      TrackedStep(c, w, steps[0]);
      TrackedRun(c, Apply(c, w, steps[0]), steps[1..], w');
    }
  }

  /**
   Bounded loss.  In every state of every session `dirty` is the number of chunks marked and absent from the
   state last flushed; and unless a flush failed it is at most SYNC_EVERY - 1 plus the workers between
   markDone and the end of maybeFlush.
   */
  lemma BoundedUnflushed(c: Config, w0: World, steps: seq<Step>, w: World)
    requires Fresh(c, w0) && Executes(c, w0, steps, w) && w.proc.Running?
    ensures |w.proc.s.flushed| == |w.proc.s.state|
    ensures w.proc.s.dirty == Unflushed(w.proc.s.state, w.proc.s.flushed)
    ensures !w.proc.s.flushErr ==> w.proc.s.dirty <= 15 + Between(w.proc.s.workers)
  {
    FreshSafe(c, w0);
    TrackedRun(c, w0, steps, w);
  }

  /**
   Progress bracket.  In any run, each value handed to onProgress lies between the bytes of the chunks
   counted and that plus CHUNK - 1, never exceeds the total, the counter behind it only grows, and the value
   that completes the count is the total.
   */
  lemma ProgressBracket(c: Config, w0: World, steps: seq<Step>, w: World, v: nat)
    requires Fresh(c, w0) && Executes(c, w0, steps, w)
    requires w.proc.Running? && EnabledWorker(c, w.proc.s, Report(v))
    ensures var s' := ApplyWorker(c, w.proc.s, Report(v));
            && |s'.counted| == N(c) && w.proc.s.counter < s'.counter
            && CountedBytes(Total(c), s'.counted) <= Reported(c, s') <= Total(c)
            && Reported(c, s') <= CountedBytes(Total(c), s'.counted) + CHUNK - 1
            && ((forall i | 0 <= i < N(c) :: s'.counted[i]) ==> Reported(c, s') == Total(c))
  {
    FreshSafe(c, w0);
    TrackedRun(c, w0, steps, w);
    assert w.proc.s.todo != [];
    ReportStep(c, w.proc.s, v);
  }
}
