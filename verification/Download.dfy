/**
 backfill/oldfaithful.go, DownloadResumable and runChunks, as a step machine over a crashing disk.

 One step is one action of one goroutine, of the caller cancelling, of the process being killed or of
 the machine crashing.  A run is any sequence of enabled steps, so it covers every interleaving and any
 number of download sessions over the same files.
 */
module Download {
  import opened Prelude
  import opened Disk
  import opened Parts

  const CHUNK: int := 33554432  // 32 << 20
  const DEFAULT_CONCURRENCY: nat := 16

  /**
   The object being downloaded, as the server holds it, the client's concurrency setting, and whether the
   environment is one where Stat on the open file never fails.
   */
  datatype Config = Config(src: Bytes, concurrency: int, statNeverFails: bool)

  function Total(c: Config): nat { |c.src| }

  function ChunkCount(total: nat): nat { (total + CHUNK - 1) / CHUNK }

  function Lo(i: nat): nat { i * CHUNK }

  /** The length of chunk `i`: a full chunk, or what remains. */
  function Len(total: nat, i: nat): int {
    if total - Lo(i) < CHUNK then total - Lo(i) else CHUNK
  }

  function WorkerCount(concurrency: int, jobs: nat): nat {
    var w := if concurrency <= 0 then DEFAULT_CONCURRENCY else concurrency;
    if w > jobs then jobs else w
  }

  // ---- State ----

  /** Io is an error of the chunk's own; Induced is what a request reports once its context is cancelled. */
  datatype Err = Io | Induced
  datatype Result = Done | Failed(e: Err) | ParentCancelled

  /** Where a worker goroutine stands; the number is the chunk it holds. */
  datatype Pc =
    | Idle | Fetching(i: nat) | Writing(i: nat) | Marking(i: nat) | Checking(i: nat)
    | Flushing(i: nat) | Reporting(i: nat) | Failing(e: Err) | Cancelling | Exited

  datatype Actor = Worker(w: nat) | Main
  datatype Stage = AtSync | AtOpen | AtWrite
  datatype Lock = Free | Held(owner: Actor, stage: Stage)
  datatype Dispatcher = Selecting | Checked | Closed
  datatype MainPc = Waiting | WantLock | FinalFlush | Deciding | Returning(r: Result)

  /**
   One call.  `resumed`, `flushed`, `flushErr`, `counted` and `openSize` are history: the state at open,
   the state last flushed, whether a flush failed, the chunks in the progress counter, and the file's
   size once it was opened.
   */
  datatype Session = Session(
    state: Bytes, dirty: nat, todo: seq<nat>, next: nat, disp: Dispatcher, workers: seq<Pc>, lock: Lock,
    errs: seq<Err>, parent: bool, ctx: bool, main: MainPc, counter: nat,
    resumed: Bytes, flushed: Bytes, flushErr: bool, counted: seq<bool>, openSize: nat)

  datatype Proc = NotRunning | Running(s: Session) | Returned(r: Result, openSize: nat)
  datatype World = World(data: File, side: File, proc: Proc)

  datatype Step =
    | Open(fault: OpenFault, statOk: bool)
    | Dispatch(w: nat) | SeeCancel | Recheck | EndLoop | Leave(w: nat)
    | FetchOk(w: nat) | FetchFail(w: nat, e: Err) | Write(w: nat, k: nat) | Mark(w: nat)
    | MaybeFlush(w: nat) | Report(w: nat) | PushErr(w: nat) | CancelCtx(w: nat)
    | FlushSync(ok: bool) | FlushOpen(ok: bool) | FlushWrite(k: nat, ok: bool)
    | Join | LockMain | Decide | Close(removeOk: bool)
    | CancelParent | Kill | Crash(data': Option<Bytes>, side': Option<Bytes>)

  // ---- Opening ----

  function OpenedData(c: Config, data: File, fault: OpenFault, statOk: bool): File {
    if fault.CreateFails? then data
    else
      var made := Create(data);
      if made.live.Some? && statOk && |made.live.value| != Total(c) && !fault.TruncateFails?
      then Put(made, Resize(made.live.value, Total(c))) else made
  }

  predicate OpenStops(c: Config, data: File, fault: OpenFault, statOk: bool) {
    || fault.CreateFails?
    || (fault.TruncateFails? && statOk && Create(data).live.Some? && |Create(data).live.value| != Total(c))
  }

  function LiveSize(f: File): nat { if f.live.Some? then |f.live.value| else 0 }

  /** The progress counter's first value: chunks not pending, capped at the total. */
  function FirstCounter(total: nat, n: nat, pending: nat): int {
    var raw := (n - pending) * CHUNK;
    if raw > total then total else raw
  }

  function NewSession(c: Config, state: Bytes, size: nat, stopped: bool): (s: Session)
    requires |PendingOf(state)| <= |state|
  {
    var todo := PendingOf(state);
    var run := !stopped && todo != [];
    Session(state, 0, todo, 0, Selecting,
      seq(if run then WorkerCount(c.concurrency, |todo|) else 0, i => Idle), Free, [], false, false,
      if stopped then Returning(Failed(Io)) else if todo == [] then Returning(Done) else Waiting,
      FirstCounter(Total(c), |state|, |todo|),
      state, state, false, seq(|state|, i requires 0 <= i < |state| => state[i] != 0), size)
  }

  lemma {:induction false} PendingFits(state: Bytes)
    ensures |PendingOf(state)| <= |state|
  {
    if state != [] { PendingFits(state[..|state| - 1]); }
  }

  /** As many workers as asked for, 16 if nothing is asked for, and no more than there are chunks to fetch. */
  lemma PoolIsSized(c: Config, state: Bytes, size: nat)
    requires |PendingOf(state)| <= |state| && PendingOf(state) != []
    ensures var workers, jobs := |NewSession(c, state, size, false).workers|, |PendingOf(state)|;
            && 0 < workers <= jobs
            && (workers < jobs ==> workers == if c.concurrency > 0 then c.concurrency else 16)
            && (c.concurrency > 0 ==> workers <= c.concurrency) && (c.concurrency <= 0 ==> workers <= 16)
  {}

  function ApplyOpen(c: Config, w: World, fault: OpenFault, statOk: bool): World {
    var n := ChunkCount(Total(c));
    var side := SideAfterOpen(w.side, n, fault);
    if OpenFails(w.side.live, n, fault) then World(w.data, side, Returned(Failed(Io), 0))
    else
      var state := LoadState(w.side.live, n);
      var data := OpenedData(c, w.data, fault, statOk);
      PendingFits(state);
      World(data, side, Running(NewSession(c, state, LiveSize(data), OpenStops(c, w.data, fault, statOk))))
  }

  // ---- Goroutine steps ----

  predicate At(s: Session, w: nat) { w < |s.workers| }

  function Move(s: Session, w: nat, pc: Pc): Session
    requires At(s, w)
  {
    s.(workers := s.workers[w := pc])
  }

  predicate EnabledWorker(c: Config, s: Session, st: Step) {
    match st
    case Leave(w) => At(s, w) && s.workers[w].Idle? && s.disp.Closed?
    case FetchOk(w) => At(s, w) && s.workers[w].Fetching?
    case FetchFail(w, e) => At(s, w) && s.workers[w].Fetching? && (e.Induced? ==> s.ctx)
    case Write(w, k) => At(s, w) && s.workers[w].Writing? && k <= Len(Total(c), s.workers[w].i)
    case Mark(w) => At(s, w) && s.workers[w].Marking? && s.lock.Free?
    case MaybeFlush(w) => At(s, w) && s.workers[w].Checking? && s.lock.Free?
    case Report(w) => At(s, w) && s.workers[w].Reporting?
    case PushErr(w) => At(s, w) && s.workers[w].Failing? && |s.errs| < |s.workers|
    case CancelCtx(w) => At(s, w) && s.workers[w].Cancelling?
    case _ => false
  }

  function ApplyWorker(c: Config, s: Session, st: Step): Session
    requires EnabledWorker(c, s, st)
  {
    match st
    case Leave(w) => Move(s, w, Exited)
    case FetchOk(w) => Move(s, w, Writing(s.workers[w].i))
    case FetchFail(w, e) => Move(s, w, Failing(e))
    case Write(w, k) =>
      var i := s.workers[w].i;
      Move(s, w, if k == Len(Total(c), i) then Marking(i) else Failing(Io))
    case Mark(w) =>
      var i := s.workers[w].i;
      Move(s, w, Checking(i)).(state := MarkState(s.state, i), dirty := MarkDirty(s.state, s.dirty, i))
    case MaybeFlush(w) =>
      var i := s.workers[w].i;
      if s.dirty < SYNC_EVERY then Move(s, w, Reporting(i))
      else Move(s, w, Flushing(i)).(lock := Held(Worker(w), AtSync))
    case Report(w) =>
      var i := s.workers[w].i;
      Move(s, w, Idle).(
        counter := s.counter + Max(Len(Total(c), i), 0),
        counted := if i < |s.counted| then s.counted[i := true] else s.counted)
    case PushErr(w) => Move(s, w, Cancelling).(errs := s.errs + [s.workers[w].e])
    case CancelCtx(w) => Move(s, w, Exited).(ctx := true)
  }

  /** What a worker's step leaves alone. */
  lemma WorkerFrame(c: Config, s: Session, st: Step)
    requires EnabledWorker(c, s, st)
    ensures var s' := ApplyWorker(c, s, st);
            && At(s', st.w) && s'.workers == s.workers[st.w := s'.workers[st.w]]
            && s'.todo == s.todo && s'.next == s.next && s'.resumed == s.resumed
            && s'.flushed == s.flushed && s'.flushErr == s.flushErr
            && (!st.Mark? ==> s'.state == s.state && s'.dirty == s.dirty)
            && (!st.Report? ==> s'.counted == s.counted && s'.counter == s.counter)
            && (s'.lock == s.lock || s'.lock == Held(Worker(st.w), AtSync))
  {}

  /** What `Report` hands to onProgress. */
  function Reported(c: Config, s: Session): int { Min(s.counter, Total(c)) }

  predicate EnabledFlush(s: Session, st: Step) {
    match st
    case FlushSync(ok) => s.lock.Held? && s.lock.stage.AtSync?
    case FlushOpen(ok) => s.lock.Held? && s.lock.stage.AtOpen?
    case FlushWrite(k, ok) => s.lock.Held? && s.lock.stage.AtWrite? && k <= |s.state| && (ok ==> k == |s.state|)
    case _ => false
  }

  /** The holder gives the lock back, going on or failing. */
  function Unlock(s: Session, ok: bool): Session
    requires s.lock.Held?
  {
    var t := s.(lock := Free, dirty := if ok then 0 else s.dirty,
                flushed := if ok then s.state else s.flushed, flushErr := s.flushErr || !ok);
    match s.lock.owner
    case Main => t.(main := if ok then Deciding else Returning(Failed(Io)))
    case Worker(w) =>
      if At(t, w) && t.workers[w].Flushing?
      then Move(t, w, if ok then Reporting(t.workers[w].i) else Failing(Io)) else t
  }

  function ApplyFlush(s: Session, st: Step): Session
    requires EnabledFlush(s, st)
  {
    match st
    case FlushSync(ok) => if ok then s.(lock := s.lock.(stage := AtOpen)) else Unlock(s, false)
    case FlushOpen(ok) => if ok then s.(lock := s.lock.(stage := AtWrite)) else Unlock(s, false)
    case FlushWrite(k, ok) => Unlock(s, ok)
  }

  /** What giving the lock back does: its holder moves, and the ledger is clean or the flush failed. */
  lemma UnlockFrame(s: Session, ok: bool)
    requires s.lock.Held?
    ensures var t := Unlock(s, ok);
            && t.state == s.state && t.todo == s.todo && t.next == s.next && t.resumed == s.resumed
            && t.counted == s.counted && t.counter == s.counter && |t.workers| == |s.workers| && t.lock.Free?
            && t.errs == s.errs && t.ctx == s.ctx && t.parent == s.parent && t.disp == s.disp
            && (if ok then t.flushed == s.state && t.dirty == 0
                else t.flushed == s.flushed && t.dirty == s.dirty && t.flushErr)
  {}

  lemma UnlockMoves(s: Session, ok: bool, w: nat)
    requires s.lock.Held? && At(s, w)
    ensures var pc, pc' := s.workers[w], Unlock(s, ok).workers[w];
            pc' == pc || (pc.Flushing? && pc' == if ok then Reporting(pc.i) else Failing(Io))
  {}

  /** A flush step only moves the lock on, or gives it back. */
  lemma FlushMoves(s: Session, st: Step)
    requires EnabledFlush(s, st)
    ensures || ApplyFlush(s, st) == Unlock(s, st.ok)
            || ApplyFlush(s, st) == s.(lock := s.lock.(stage := AtOpen))
            || ApplyFlush(s, st) == s.(lock := s.lock.(stage := AtWrite))
  {}

  predicate EnabledMain(s: Session, st: Step) {
    match st
    case Dispatch(w) =>
      && s.main.Waiting? && s.disp.Selecting? && s.next < |s.todo|
      && At(s, w) && s.workers[w].Idle?
    case SeeCancel => s.main.Waiting? && s.disp.Selecting? && s.next < |s.todo| && s.ctx
    case Recheck => s.main.Waiting? && s.disp.Checked?
    case EndLoop => s.main.Waiting? && s.disp.Selecting? && s.next >= |s.todo|
    case Join => s.main.Waiting? && s.disp.Closed? && forall w | 0 <= w < |s.workers| :: s.workers[w].Exited?
    case LockMain => s.main.WantLock? && s.lock.Free?
    case Decide => s.main.Deciding?
    case CancelParent => !s.parent
    case _ => false
  }

  /** The context's cancellation is sticky, so a select that saw it goes on to leave the loop. */
  function ApplyMain(s: Session, st: Step): Session
    requires EnabledMain(s, st)
  {
    match st
    case Dispatch(w) => Move(s, w, Fetching(s.todo[s.next])).(next := s.next + 1, disp := Checked)
    case SeeCancel => s.(disp := Closed)
    case Recheck => s.(disp := if s.ctx then Closed else Selecting)
    case EndLoop => s.(disp := Closed)
    case Join => s.(main := WantLock)
    case LockMain => s.(main := FinalFlush, lock := Held(Main, AtSync))
    case Decide =>
      s.(main := Returning(if s.parent then ParentCancelled else if s.errs != [] then Failed(s.errs[0]) else Done))
    case CancelParent => s.(parent := true, ctx := true)
  }

  // ---- The machine ----

  /** The data file after a session step: only WriteAt and fsync touch it. */
  function DataAfter(c: Config, data: File, s: Session, st: Step): File {
    match st
    case Write(w, k) =>
      if data.live.Some? && At(s, w) && s.workers[w].Writing? && Lo(s.workers[w].i) + k <= Total(c) then
        var lo := Lo(s.workers[w].i);
        Put(data, Splice(data.live.value, lo, c.src[lo..lo + k]))
      else data
    case FlushSync(ok) => if ok then Sync(data) else data
    case _ => data
  }

  /** The sidecar after a session step: only the two halves of os.WriteFile touch it. */
  function SideAfter(side: File, s: Session, st: Step): File {
    match st
    case FlushOpen(ok) => if ok then TruncateSide(side) else side
    case FlushWrite(k, ok) => Put(side, s.state[..Min(k, |s.state|)])
    case _ => side
  }

  predicate EnabledSession(c: Config, s: Session, st: Step) {
    EnabledWorker(c, s, st) || EnabledFlush(s, st) || EnabledMain(s, st)
  }

  function ApplySession(c: Config, s: Session, st: Step): Session
    requires EnabledSession(c, s, st)
  {
    if EnabledWorker(c, s, st) then ApplyWorker(c, s, st)
    else if EnabledFlush(s, st) then ApplyFlush(s, st)
    else ApplyMain(s, st)
  }

  ghost predicate Enabled(c: Config, w: World, st: Step) {
    match st
    case Open(fault, statOk) => !w.proc.Running? && (c.statNeverFails ==> statOk)
    case Kill => w.proc.Running?
    case Crash(d, p) => Survives(w.data, d) && Survives(w.side, p)
    case Close(removeOk) => w.proc.Running? && w.proc.s.main.Returning?
    case _ => w.proc.Running? && EnabledSession(c, w.proc.s, st)
  }

  function Apply(c: Config, w: World, st: Step): World {
    match st
    case Open(fault, statOk) => ApplyOpen(c, w, fault, statOk)
    case Kill => w.(proc := NotRunning)
    case Crash(d, p) => World(Settled(d), Settled(p), NotRunning)
    case Close(removeOk) =>
      if w.proc.Running? && w.proc.s.main.Returning? then
        World(w.data, CloseSide(w.side, w.proc.s.state, removeOk),
              Returned(w.proc.s.main.r, w.proc.s.openSize))
      else w
    case _ =>
      if w.proc.Running? && EnabledSession(c, w.proc.s, st) then
        World(DataAfter(c, w.data, w.proc.s, st), SideAfter(w.side, w.proc.s, st),
              Running(ApplySession(c, w.proc.s, st)))
      else w
  }

  /** `steps`, all enabled in turn, lead from `w` to `w'`. */
  ghost predicate Executes(c: Config, w: World, steps: seq<Step>, w': World)
    decreases |steps|
  {
    if steps == [] then w == w'
    else Enabled(c, w, steps[0]) && Executes(c, Apply(c, w, steps[0]), steps[1..], w')
  }

  lemma FirstThen(c: Config, w: World, st: Step, rest: seq<Step>, w': World)
    requires Enabled(c, w, st) && Executes(c, Apply(c, w, st), rest, w')
    ensures Executes(c, w, [st] + rest, w')
  {
    assert ([st] + rest)[1..] == rest;
  }

  /** One flush, as the three steps the machine takes for it. */
  function FlushSteps(state: Bytes, io: FlushIo): seq<Step> {
    [FlushSync(io.syncOk)] + if io.syncOk then OpenSteps(state, io) else []
  }

  function OpenSteps(state: Bytes, io: FlushIo): seq<Step> {
    [FlushOpen(io.openOk)]
    + if io.openOk then [FlushWrite(Min(io.written, |state|), FlushOk(|state|, io.(syncOk := true)))] else []
  }

  /** A flush step in the world: the session's step, and what it does to one of the files. */
  lemma FlushStepApplies(c: Config, w: World, st: Step)
    requires w.proc.Running? && EnabledFlush(w.proc.s, st)
    ensures Enabled(c, w, st)
    ensures Apply(c, w, st)
            == World(DataAfter(c, w.data, w.proc.s, st), SideAfter(w.side, w.proc.s, st),
                     Running(ApplyFlush(w.proc.s, st)))
  {}

  lemma LastStep(c: Config, w: World, st: Step, w': World)
    requires Enabled(c, w, st) && Apply(c, w, st) == w'
    ensures Executes(c, w, [st] + [], w')
  {
    FirstThen(c, w, st, [], w');
  }

  lemma WriteStepIsFlush(c: Config, w: World, io: FlushIo)
    requires w.proc.Running? && w.proc.s.lock.Held? && w.proc.s.lock.stage.AtWrite? && io.syncOk && io.openOk
    ensures var s := w.proc.s;
            Executes(c, w, [FlushWrite(Min(io.written, |s.state|), FlushOk(|s.state|, io))] + [],
              World(w.data, Put(w.side, s.state[..Min(io.written, |s.state|)]),
                    Running(Unlock(s, FlushOk(|s.state|, io)))))
  {
    var write := FlushWrite(Min(io.written, |w.proc.s.state|), FlushOk(|w.proc.s.state|, io));
    FlushStepApplies(c, w, write);
    LastStep(c, w, write, Apply(c, w, write));
  }

  lemma OpenStepsAreFlush(c: Config, w: World, io: FlushIo)
    requires w.proc.Running? && w.proc.s.lock.Held? && w.proc.s.lock.stage.AtOpen? && io.syncOk
    ensures var s := w.proc.s;
            Executes(c, w, OpenSteps(s.state, io),
              World(w.data, FlushSide(w.side, s.state, io), Running(Unlock(s, FlushOk(|s.state|, io)))))
  {
    var s := w.proc.s;
    FlushStepApplies(c, w, FlushOpen(io.openOk));
    if io.openOk {
      var w1 := World(w.data, TruncateSide(w.side), Running(s.(lock := s.lock.(stage := AtWrite))));
      WriteStepIsFlush(c, w1, io);
      FirstThen(c, w, FlushOpen(true), [FlushWrite(Min(io.written, |s.state|), FlushOk(|s.state|, io))] + [],
        World(w.data, FlushSide(w.side, s.state, io), Running(Unlock(s, FlushOk(|s.state|, io)))));
    } else {
      LastStep(c, w, FlushOpen(false), Apply(c, w, FlushOpen(false)));
    }
  }

  /** With nothing in between, those steps do to both files and to the ledger what PartsFile.FlushLocked does. */
  lemma FlushStepsAreFlush(c: Config, w: World, io: FlushIo)
    requires w.proc.Running? && w.proc.s.lock.Held? && w.proc.s.lock.stage.AtSync?
    ensures var s := w.proc.s;
            Executes(c, w, FlushSteps(s.state, io),
              World(FlushData(w.data, io), FlushSide(w.side, s.state, io), Running(Unlock(s, FlushOk(|s.state|, io)))))
  {
    var s := w.proc.s;
    FlushStepApplies(c, w, FlushSync(io.syncOk));
    if io.syncOk {
      var w1 := World(Sync(w.data), w.side, Running(s.(lock := s.lock.(stage := AtOpen))));
      OpenStepsAreFlush(c, w1, io);
      FirstThen(c, w, FlushSync(true), OpenSteps(s.state, io),
        World(Sync(w.data), FlushSide(w.side, s.state, io), Running(Unlock(s, FlushOk(|s.state|, io)))));
    } else {
      LastStep(c, w, FlushSync(false), Apply(c, w, FlushSync(false)));
    }
  }
}
