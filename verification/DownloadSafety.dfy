/**
 Crash safety of the download: whatever sidecar a crash leaves, every chunk it claims is on disk equal
 to the source, over any number of sessions, interleavings, kills and crashes.
 */
module DownloadSafety {
  import opened Prelude
  import opened Disk
  import opened Parts
  import opened Download

  function N(c: Config): nat { ChunkCount(Total(c)) }

  function Hi(c: Config, i: nat): int { Lo(i) + Len(Total(c), i) }

  /** Every byte of the source lies in exactly one chunk, and every chunk is non-empty and in range. */
  lemma ChunksTile(c: Config, p: nat)
    requires p < Total(c)
    ensures p / CHUNK < N(c) && Lo(p / CHUNK) <= p < Hi(c, p / CHUNK)
    ensures forall i: nat | i < N(c) && Lo(i) <= p < Hi(c, i) :: i == p / CHUNK
  {}

  lemma ChunkInRange(c: Config, i: nat)
    requires i < N(c)
    ensures 0 <= Lo(i) < Hi(c, i) <= Total(c) && 1 <= Len(Total(c), i) <= CHUNK
    ensures Lo(i) == i * 33554432 && Hi(c, i) == Min(Total(c), (i + 1) * 33554432)
  {}

  /** `b` holds the source's bytes of chunk `i`, and has the source's size where Stat can be relied on. */
  ghost predicate GoodChunk(c: Config, b: Bytes, i: nat) {
    && (c.statNeverFails ==> |b| == Total(c)) && i < N(c) && Hi(c, i) <= |b|
    && forall p | Lo(i) <= p < Hi(c, i) :: p < |b| && p < |c.src| && b[p] == c.src[p]
  }

  /** The chunk is in the file as a reader sees it. */
  ghost predicate Landed(c: Config, data: File, i: nat) {
    data.live.Some? && GoodChunk(c, data.live.value, i)
  }

  /** The chunk is in the file whatever a crash does to it. */
  ghost predicate Durable(c: Config, data: File, i: nat) {
    data.live.Some? && !data.mayVanish && data.gone == {} && forall v | v in data.versions :: GoodChunk(c, v, i)
  }

  ghost predicate ClaimsDurable(c: Config, data: File, v: Bytes) {
    forall j | 0 <= j < |v| && v[j] != 0 :: Durable(c, data, j)
  }

  /** A sidecar this download wrote, or one that no crash can make the right length: that of another object, say. */
  ghost predicate Ours(c: Config, data: File, versions: set<Bytes>) {
    forall v | v in versions :: |v| <= N(c) && ClaimsDurable(c, data, v)
  }

  ghost predicate Hopeless(c: Config, versions: set<Bytes>) {
    (forall v | v in versions :: |v| < N(c)) || (forall v | v in versions :: |v| > N(c))
  }

  ghost predicate SafeInode(c: Config, data: File, versions: set<Bytes>) {
    Ours(c, data, versions) || Hopeless(c, versions)
  }

  ghost predicate DiskSafe(c: Config, data: File, side: File) {
    && WellFormed(data) && WellFormed(side)
    && SafeInode(c, data, side.versions)
    && forall g | g in side.gone :: SafeInode(c, data, g)
  }

  ghost predicate PcSafe(c: Config, data: File, pc: Pc) {
    match pc
    case Idle => true
    case Fetching(i) => i < N(c)
    case Writing(i) => i < N(c)
    case Marking(i) => Landed(c, data, i)
    case _ => true
  }

  ghost predicate SizedData(c: Config, data: File) {
    data.live.Some? && (c.statNeverFails ==> |data.live.value| == Total(c))
  }

  ghost predicate SessionSafe(c: Config, data: File, side: File, s: Session) {
    && |s.state| == N(c)
    && Ours(c, data, side.versions)
    && (s.workers == [] || SizedData(c, data))
    && (forall i | i in s.todo :: i < N(c))
    && (forall j | 0 <= j < |s.state| && s.state[j] != 0 :: Landed(c, data, j))
    && (s.lock.Held? && !s.lock.stage.AtSync? ==> ClaimsDurable(c, data, s.state))
    && forall w | 0 <= w < |s.workers| :: PcSafe(c, data, s.workers[w])
  }

  ghost predicate Safe(c: Config, w: World) {
    DiskSafe(c, w.data, w.side) && (w.proc.Running? ==> SessionSafe(c, w.data, w.side, w.proc.s))
  }

  /** Before the first session: no process, and a settled disk with nothing untrue in a right-length sidecar. */
  ghost predicate Fresh(c: Config, w: World) {
    && w.proc.NotRunning?
    && w.data == Settled(w.data.live) && w.side == Settled(w.side.live)
    && (w.side.live.Some? && |w.side.live.value| == N(c) ==>
          forall j | 0 <= j < N(c) && w.side.live.value[j] != 0 :: Landed(c, w.data, j))
  }

  // ---- How the disk's facts travel ----

  /** Nothing durable or landed is lost from `d` to `d'`. */
  ghost predicate Keeps(c: Config, d: File, d': File) {
    && (forall j :: Durable(c, d, j) ==> Durable(c, d', j))
    && (forall j :: Landed(c, d, j) ==> Landed(c, d', j))
  }

  lemma KeepsDisk(c: Config, d: File, d': File, side: File)
    requires DiskSafe(c, d, side) && Keeps(c, d, d') && WellFormed(d')
    ensures DiskSafe(c, d', side)
    ensures Ours(c, d, side.versions) ==> Ours(c, d', side.versions)
  {
    forall vs | SafeInode(c, d, vs) ensures SafeInode(c, d', vs) {}
  }

  lemma SyncKeeps(c: Config, d: File)
    requires WellFormed(d)
    ensures Keeps(c, d, Sync(d)) && WellFormed(Sync(d))
    ensures forall j | Landed(c, d, j) :: Durable(c, Sync(d), j)
  {}

  /** Writing any prefix of a chunk's own source bytes at its own offset spoils no chunk. */
  lemma WriteKeeps(c: Config, d: File, i: nat, k: nat)
    requires WellFormed(d) && SizedData(c, d) && i < N(c) && k <= Len(Total(c), i)
    ensures Lo(i) + k <= Total(c)
    ensures var d' := Put(d, Splice(d.live.value, Lo(i), c.src[Lo(i)..Lo(i) + k]));
            Keeps(c, d, d') && SizedData(c, d') && (k == Len(Total(c), i) ==> Landed(c, d', i))
  {
    ChunkInRange(c, i);
    var b := Splice(d.live.value, Lo(i), c.src[Lo(i)..Lo(i) + k]);
    var d' := Put(d, b);
    forall j | GoodChunk(c, d.live.value, j) ensures GoodChunk(c, b, j) {}
  }

  /** Resizing to the source's own length spoils no chunk either. */
  lemma ResizeKeeps(c: Config, d: File)
    requires WellFormed(d) && d.live.Some?
    ensures Keeps(c, d, Put(d, Resize(d.live.value, Total(c))))
  {
    var b := Resize(d.live.value, Total(c));
    forall j | GoodChunk(c, d.live.value, j) ensures GoodChunk(c, b, j) { ChunkInRange(c, j); }
  }

  lemma OpenKeeps(c: Config, d: File, fault: OpenFault, statOk: bool)
    requires WellFormed(d)
    ensures var d' := OpenedData(c, d, fault, statOk);
            && Keeps(c, d, d') && WellFormed(d')
            && (OpenStops(c, d, fault, statOk) || (statOk || !c.statNeverFails ==> SizedData(c, d')))
  {
    if !fault.CreateFails? { ResizeKeeps(c, Create(d)); }
  }

  /** A durable chunk survives every crash. */
  lemma DurableSurvives(c: Config, d: File, content: Option<Bytes>, j: nat)
    requires Durable(c, d, j) && Survives(d, content)
    ensures content.Some? && GoodChunk(c, content.value, j)
  {
    var b := content.value;
    assert Torn(b, d.versions);
    var v :| v in d.versions && |v| <= |b|;
    assert GoodChunk(c, v, j);
    forall p | Lo(j) <= p < Hi(c, j) ensures p < |b| && p < |c.src| && b[p] == c.src[p] {
      assert TornByte(b, d.versions, p);
      assert forall u | u in d.versions :: GoodChunk(c, u, j) && p < |u|;
    }
  }

  /** Whatever a crash makes of a safe sidecar, a right-length one claims only durable chunks. */
  lemma TornClaims(c: Config, d: File, versions: set<Bytes>, p: Bytes, j: nat)
    requires SafeInode(c, d, versions) && Torn(p, versions)
    requires |p| == N(c) && j < |p| && p[j] != 0
    ensures Durable(c, d, j)
  {
    var a :| a in versions && |a| <= |p|;
    var b :| b in versions && |p| <= |b|;
    assert Ours(c, d, versions);
    assert TornByte(p, versions, j);
    var v :| v in versions && j < |v| && v[j] == p[j];
    assert ClaimsDurable(c, d, v);
  }

  lemma SurvivorClaims(c: Config, d: File, side: File, p: Bytes, j: nat)
    requires DiskSafe(c, d, side) && Survives(side, Some(p))
    requires |p| == N(c) && j < |p| && p[j] != 0
    ensures Durable(c, d, j)
  {
    if Torn(p, side.versions) {
      TornClaims(c, d, side.versions, p, j);
    } else {
      var g :| g in side.gone && Torn(p, g);
      TornClaims(c, d, g, p, j);
    }
  }

  // ---- Every step keeps it ----

  lemma CrashSafeStep(c: Config, w: World, d: Option<Bytes>, p: Option<Bytes>)
    requires Safe(c, w) && Survives(w.data, d) && Survives(w.side, p)
    ensures Safe(c, Apply(c, w, Crash(d, p)))
  {
    if p.Some? && |p.value| == N(c) {
      forall j | 0 <= j < N(c) && p.value[j] != 0 ensures Durable(c, Settled(d), j) {
        SurvivorClaims(c, w.data, w.side, p.value, j);
        DurableSurvives(c, w.data, d, j);
      }
      assert Ours(c, Settled(d), Settled(p).versions);
    }
  }

  /** A right-length sidecar is one of its own versions, so what it says of the chunks is true. */
  lemma LoadedStateTrue(c: Config, d: File, side: File)
    requires DiskSafe(c, d, side)
    ensures ClaimsDurable(c, d, LoadState(side.live, N(c)))
    ensures !Stale(side.live, N(c)) ==> Ours(c, d, side.versions)
  {}

  lemma SideOpenSafe(c: Config, d: File, side: File, fault: OpenFault)
    requires DiskSafe(c, d, side)
    ensures var side' := SideAfterOpen(side, N(c), fault);
            DiskSafe(c, d, side') && (!OpenFails(side.live, N(c), fault) ==> Ours(c, d, side'.versions))
  {
    LoadedStateTrue(c, d, side);
  }

  lemma NewSessionSafe(c: Config, data: File, side: File, state: Bytes, size: nat, stopped: bool)
    requires DiskSafe(c, data, side) && Ours(c, data, side.versions)
    requires |state| == N(c) && ClaimsDurable(c, data, state) && (stopped || SizedData(c, data))
    requires |PendingOf(state)| <= |state|
    ensures SessionSafe(c, data, side, NewSession(c, state, size, stopped))
  {
    var s := NewSession(c, state, size, stopped);
    PendingIsExact(state);
    forall j | 0 <= j < |state| && state[j] != 0 ensures Landed(c, data, j) {
      assert Durable(c, data, j);
    }
    assert forall u | 0 <= u < |s.workers| :: s.workers[u] == Idle;
  }

  lemma OpenSafe(c: Config, w: World, fault: OpenFault, statOk: bool)
    requires Safe(c, w) && Enabled(c, w, Open(fault, statOk))
    ensures Safe(c, Apply(c, w, Open(fault, statOk)))
  {
    var n := N(c);
    var side := SideAfterOpen(w.side, n, fault);
    SideOpenSafe(c, w.data, w.side, fault);
    if !OpenFails(w.side.live, n, fault) {
      var state := LoadState(w.side.live, n);
      var data := OpenedData(c, w.data, fault, statOk);
      LoadedStateTrue(c, w.data, w.side);
      OpenKeeps(c, w.data, fault, statOk);
      KeepsDisk(c, w.data, data, side);
      PendingFits(state);
      NewSessionSafe(c, data, side, state, LiveSize(data), OpenStops(c, w.data, fault, statOk));
    }
  }

  lemma CloseSafe(c: Config, w: World, removeOk: bool)
    requires Safe(c, w) && Enabled(c, w, Close(removeOk))
    ensures Safe(c, Apply(c, w, Close(removeOk)))
  {}

  /** Moving one worker to a safe place leaves the rest of the session as safe as it was. */
  lemma MoveSafe(c: Config, data: File, side: File, s: Session, v: nat, pc: Pc)
    requires SessionSafe(c, data, side, s) && At(s, v) && PcSafe(c, data, pc)
    ensures SessionSafe(c, data, side, Move(s, v, pc))
  {}

  /** Counters, errors and contexts do not matter to safety, nor does taking the lock. */
  lemma SameLedgerSafe(c: Config, data: File, side: File, s: Session, s': Session)
    requires SessionSafe(c, data, side, s)
    requires s'.state == s.state && s'.todo == s.todo && s'.workers == s.workers
    requires s'.lock == s.lock || (s'.lock.Held? && s'.lock.stage.AtSync?)
    ensures SessionSafe(c, data, side, s')
  {}

  lemma MarkSafe(c: Config, w: World, v: nat)
    requires Safe(c, w) && w.proc.Running? && EnabledWorker(c, w.proc.s, Mark(v))
    ensures Safe(c, Apply(c, w, Mark(v)))
  {
    var s := w.proc.s;
    var i := s.workers[v].i;
    assert PcSafe(c, w.data, s.workers[v]);
    MoveSafe(c, w.data, w.side, s, v, Checking(i));
  }

  lemma WorkerPcSafe(c: Config, data: File, s: Session, st: Step)
    requires EnabledWorker(c, s, st) && !st.Write? && !st.Mark? && PcSafe(c, data, s.workers[st.w])
    ensures PcSafe(c, data, ApplyWorker(c, s, st).workers[st.w])
  {}

  lemma WorkerSessionSafe(c: Config, data: File, side: File, s: Session, st: Step)
    requires SessionSafe(c, data, side, s) && EnabledWorker(c, s, st) && !st.Write? && !st.Mark?
    ensures SessionSafe(c, data, side, ApplyWorker(c, s, st))
  {
    var s' := ApplyWorker(c, s, st);
    WorkerFrame(c, s, st);
    WorkerPcSafe(c, data, s, st);
    MoveSafe(c, data, side, s, st.w, s'.workers[st.w]);
    SameLedgerSafe(c, data, side, Move(s, st.w, s'.workers[st.w]), s');
  }

  lemma WorkerSafe(c: Config, w: World, st: Step)
    requires Safe(c, w) && w.proc.Running? && EnabledWorker(c, w.proc.s, st) && !st.Write? && !st.Mark?
    ensures Safe(c, Apply(c, w, st))
  {
    WorkerSessionSafe(c, w.data, w.side, w.proc.s, st);
  }

  lemma WriteSafe(c: Config, w: World, v: nat, k: nat)
    requires Safe(c, w) && w.proc.Running? && EnabledWorker(c, w.proc.s, Write(v, k))
    ensures Safe(c, Apply(c, w, Write(v, k)))
  {
    var s := w.proc.s;
    var i := s.workers[v].i;
    assert PcSafe(c, w.data, s.workers[v]);
    WriteKeeps(c, w.data, i, k);
    var data := DataAfter(c, w.data, s, Write(v, k));
    KeepsDisk(c, w.data, data, w.side);
    var s' := ApplyWorker(c, s, Write(v, k));
    forall u | 0 <= u < |s'.workers| ensures PcSafe(c, data, s'.workers[u]) {
      assert PcSafe(c, w.data, s.workers[u]);
    }
  }

  lemma UnlockSafe(c: Config, data: File, side: File, s: Session, ok: bool)
    requires SessionSafe(c, data, side, s) && s.lock.Held?
    ensures SessionSafe(c, data, side, Unlock(s, ok))
  {
    var s' := Unlock(s, ok);
    UnlockFrame(s, ok);
    forall u | 0 <= u < |s'.workers| ensures PcSafe(c, data, s'.workers[u]) {
      assert PcSafe(c, data, s.workers[u]);
      UnlockMoves(s, ok, u);
    }
  }

  lemma FlushSyncSafe(c: Config, w: World, ok: bool)
    requires Safe(c, w) && w.proc.Running? && EnabledFlush(w.proc.s, FlushSync(ok))
    ensures Safe(c, Apply(c, w, FlushSync(ok)))
  {
    var s := w.proc.s;
    if ok {
      var data := Sync(w.data);
      SyncKeeps(c, w.data);
      KeepsDisk(c, w.data, data, w.side);
      forall u | 0 <= u < |s.workers| ensures PcSafe(c, data, s.workers[u]) {
        assert PcSafe(c, w.data, s.workers[u]);
      }
    } else {
      UnlockSafe(c, w.data, w.side, s, false);
    }
  }

  /** The lock keeps the bytes written to the sidecar the ones the fsync before them covered. */
  lemma FlushSideSafe(c: Config, w: World, st: Step)
    requires Safe(c, w) && w.proc.Running? && EnabledFlush(w.proc.s, st) && !st.FlushSync?
    ensures Safe(c, Apply(c, w, st))
  {
    var s := w.proc.s;
    var side := SideAfter(w.side, s, st);
    assert Ours(c, w.data, side.versions);
    assert SessionSafe(c, w.data, side, s);
    if ApplyFlush(s, st) == Unlock(s, st.ok) { UnlockSafe(c, w.data, side, s, st.ok); }
  }

  lemma MainSafe(c: Config, w: World, st: Step)
    requires Safe(c, w) && w.proc.Running? && EnabledMain(w.proc.s, st)
    ensures Safe(c, Apply(c, w, st))
  {
    var s := w.proc.s;
    var s' := ApplyMain(s, st);
    if st.Dispatch? { assert s.todo[s.next] in s.todo; }
    forall u | 0 <= u < |s'.workers| ensures PcSafe(c, w.data, s'.workers[u]) {
      assert PcSafe(c, w.data, s.workers[u]);
    }
  }

  lemma SessionStepSafe(c: Config, w: World, st: Step)
    requires Safe(c, w) && w.proc.Running? && EnabledSession(c, w.proc.s, st)
    ensures Safe(c, Apply(c, w, st))
  {
    if EnabledWorker(c, w.proc.s, st) {
      if st.Write? { WriteSafe(c, w, st.w, st.k); }
      else if st.Mark? { MarkSafe(c, w, st.w); }
      else { WorkerSafe(c, w, st); }
    } else if EnabledFlush(w.proc.s, st) {
      if st.FlushSync? { FlushSyncSafe(c, w, st.ok); } else { FlushSideSafe(c, w, st); }
    } else {
      MainSafe(c, w, st);
    }
  }

  lemma StepSafe(c: Config, w: World, st: Step)
    requires Safe(c, w) && Enabled(c, w, st)
    ensures Safe(c, Apply(c, w, st))
  {
    if st.Open? { OpenSafe(c, w, st.fault, st.statOk); }
    else if st.Close? { CloseSafe(c, w, st.removeOk); }
    else if st.Crash? { CrashSafeStep(c, w, st.data', st.side'); }
    else if !st.Kill? { SessionStepSafe(c, w, st); }
  }

  lemma FreshSafe(c: Config, w: World)
    requires Fresh(c, w)
    ensures Safe(c, w)
  {
    if w.side.live.Some? {
      var p := w.side.live.value;
      if |p| == N(c) {
        assert Ours(c, w.data, w.side.versions);
      } else {
        assert Hopeless(c, w.side.versions);
      }
    }
  }

  lemma {:induction false} SafeRun(c: Config, w: World, steps: seq<Step>, w': World)
    requires Safe(c, w) && Executes(c, w, steps, w')
    ensures Safe(c, w')
    decreases |steps|
  {
    if steps != [] {
      StepSafe(c, w, steps[0]);
      SafeRun(c, Apply(c, w, steps[0]), steps[1..], w');
    }
  }

  /**
   Crash safety.  After any run, and whatever content a crash leaves in the two files, a sidecar of the
   right length claims a chunk only if the data file holds that chunk's source bytes, and only if it has
   the source's size where Stat can be relied on.
   */
  lemma CrashSafety(c: Config, w0: World, steps: seq<Step>, w: World,
                    data': Option<Bytes>, side': Bytes, j: nat)
    requires Fresh(c, w0) && Executes(c, w0, steps, w)
    requires Survives(w.data, data') && Survives(w.side, Some(side'))
    requires |side'| == N(c) && j < |side'| && side'[j] != 0
    ensures data'.Some? && GoodChunk(c, data'.value, j)
  {
    FreshSafe(c, w0);
    SafeRun(c, w0, steps, w);
    SurvivorClaims(c, w.data, w.side, side', j);
    DurableSurvives(c, w.data, data', j);
  }

  /** A resume never skips a hole: in every session of every run, a chunk left off the list is in the file. */
  lemma ResumeSkipsNoHole(c: Config, w0: World, steps: seq<Step>, w: World, j: nat)
    requires Fresh(c, w0) && Executes(c, w0, steps, w) && w.proc.Running? && j < N(c)
    ensures |w.proc.s.state| == N(c) && (w.proc.s.state[j] != 0 ==> Landed(c, w.data, j))
  {
    FreshSafe(c, w0);
    SafeRun(c, w0, steps, w);
  }

  /** And with no crash at all: in every reachable state what the sidecar claims is in the file. */
  lemma SidecarIsTrue(c: Config, w0: World, steps: seq<Step>, w: World, j: nat)
    requires Fresh(c, w0) && Executes(c, w0, steps, w)
    requires w.side.live.Some? && |w.side.live.value| == N(c) && j < N(c) && w.side.live.value[j] != 0
    ensures Landed(c, w.data, j)
  {
    FreshSafe(c, w0);
    SafeRun(c, w0, steps, w);
    LiveSurvives(w.data);
    LiveSurvives(w.side);
    CrashSafety(c, w0, steps, w, w.data.live, w.side.live.value, j);
  }
}
