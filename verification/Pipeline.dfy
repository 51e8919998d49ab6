/**
 backfill/run.go, Run, discover and process, as a step machine over the database of Store: one dispatcher,
 a pool of block readers, one writer, cancellation, and a process that can be killed between any two steps
 and started again any number of times.
 */
module Pipeline {
  import opened Store

  const DEFAULT_CONCURRENCY: nat := 32

  function PoolSize(concurrency: int): nat {
    if concurrency <= 0 then DEFAULT_CONCURRENCY else concurrency
  }

  datatype Db = Db(slots: map<Slot, bool>, meta: map<string, string>, landing: map<string, Row>)

  /** A slot and its rows: a slotResult, and, in the log, one committed WriteSlot. */
  datatype Commit = Commit(slot: Slot, rows: seq<Row>)

  datatype Pc = Idle | Reading(slot: Slot) | Sending(slot: Slot, rows: seq<Row>) | Exited

  /**
   process: `next` counts the slots dispatched; `closed` and `drained` are close(work) and close(results).
   `written`, `failed` and `dropped` are history: where each slot that left the pool went.
   */
  datatype Pool = Pool(
    pending: seq<Slot>, next: nat, closed: bool, workers: seq<Pc>, results: seq<Commit>, drained: bool, ctx: bool,
    slotsDone: nat, failures: nat, written: seq<Slot>, failed: seq<Slot>, dropped: seq<Slot>)

  /** Finished is a nil return; the numbers are the counters and the length of the work list. */
  datatype Result = Finished(slotsDone: nat, failures: nat, pending: nat) | Cancelled | Failed

  datatype Proc =
    | Down | Discovering | Seeding(slots: seq<Slot>) | Recording | Loading | Working(p: Pool) | Ended(r: Result)

  /**
   The last four fields are history: the last discovery's slots, the work list as it was then, whether that
   discovery was seeded, and the commits in order.
   */
  datatype World = World(db: Db, proc: Proc, found: set<Slot>, known: set<Slot>, seeded: bool, log: seq<Commit>)

  /** The `metaOk` of Start is whether the read of the discovered mark succeeds. */
  datatype Step =
    | Start(metaOk: bool) | Discover(slots: seq<Slot>) | Seed(ok: bool) | Record(ok: bool)
    | Load(pending: seq<Slot>, ctx: bool) | Fail
    | Dispatch(w: nat) | StopDispatch | EndDispatch | Leave(w: nat)
    | ReadOk(w: nat, rows: seq<Row>) | ReadFail(w: nat) | Send(w: nat) | Drop(w: nat)
    | CloseResults | Write(ok: bool) | CancelCtx | Finish
    | Kill

  // ---- The pool ----

  predicate At(p: Pool, w: nat) { w < |p.workers| }

  function Move(p: Pool, w: nat, pc: Pc): Pool
    requires At(p, w)
  {
    p.(workers := p.workers[w := pc])
  }

  /** Steps of one worker; handing it a slot is one of them, the channel being unbuffered. */
  predicate EnabledWorker(p: Pool, st: Step) {
    match st
    case Dispatch(w) => !p.closed && p.next < |p.pending| && At(p, w) && p.workers[w].Idle?
    case Leave(w) => p.closed && At(p, w) && p.workers[w].Idle?
    case ReadOk(w, rows) => At(p, w) && p.workers[w].Reading?
    case ReadFail(w) => At(p, w) && p.workers[w].Reading?
    case Send(w) => At(p, w) && p.workers[w].Sending? && |p.results| < |p.workers|
    case Drop(w) => At(p, w) && p.workers[w].Sending? && p.ctx
    case _ => false
  }

  function ApplyWorker(p: Pool, st: Step): Pool
    requires EnabledWorker(p, st)
  {
    match st
    case Dispatch(w) => Move(p, w, Reading(p.pending[p.next])).(next := p.next + 1)
    case Leave(w) => Move(p, w, Exited)
    case ReadOk(w, rows) => Move(p, w, Sending(p.workers[w].slot, rows))
    case ReadFail(w) => Move(p, w, Idle).(failures := p.failures + 1, failed := p.failed + [p.workers[w].slot])
    case Send(w) => Move(p, w, Idle).(results := p.results + [Commit(p.workers[w].slot, p.workers[w].rows)])
    case Drop(w) => Move(p, w, Exited).(dropped := p.dropped + [p.workers[w].slot])
  }

  /** Steps of the dispatcher, the closer, the writer and the caller. */
  predicate EnabledMain(p: Pool, st: Step) {
    match st
    case StopDispatch => !p.closed && p.next < |p.pending| && p.ctx
    case EndDispatch => !p.closed && p.next >= |p.pending|
    case CloseResults => !p.drained && forall w | 0 <= w < |p.workers| :: p.workers[w].Exited?
    case Write(ok) => p.results != []
    case CancelCtx => !p.ctx
    case _ => false
  }

  function ApplyMain(p: Pool, st: Step): Pool
    requires EnabledMain(p, st)
  {
    match st
    case StopDispatch => p.(closed := true)
    case EndDispatch => p.(closed := true)
    case CloseResults => p.(drained := true)
    case Write(ok) =>
      var slot := p.results[0].slot;
      var q := p.(results := p.results[1..]);
      if ok then q.(slotsDone := p.slotsDone + 1, written := p.written + [slot])
      else q.(failures := p.failures + 1, failed := p.failed + [slot])
    case CancelCtx => p.(ctx := true)
  }

  predicate EnabledPool(p: Pool, st: Step) { EnabledWorker(p, st) || EnabledMain(p, st) }

  function ApplyPool(p: Pool, st: Step): Pool
    requires EnabledPool(p, st)
  {
    if EnabledWorker(p, st) then ApplyWorker(p, st) else ApplyMain(p, st)
  }

  predicate Finishing(p: Pool) { p.drained && p.results == [] }

  // ---- The whole run ----

  function Members(xs: seq<Slot>): set<Slot> { set s | s in xs }

  function NewPool(concurrency: int, pending: seq<Slot>, ctx: bool): Pool {
    Pool(pending, 0, false, seq(PoolSize(concurrency), i => Idle), [], false, ctx, 0, 0, [], [], [])
  }

  /** Fail is any error Run returns with before the pool starts. */
  ghost predicate Enabled(w: World, st: Step) {
    match st
    case Start(metaOk) => w.proc.Down? || w.proc.Ended?
    case Discover(slots) => w.proc.Discovering?
    case Seed(ok) => w.proc.Seeding? && (w.proc.slots == [] ==> ok)
    case Record(ok) => w.proc.Recording?
    case Load(pending, ctx) => w.proc.Loading? && IsPending(w.db.slots, pending)
    case Fail => w.proc.Discovering? || w.proc.Loading?
    case Finish => w.proc.Working? && Finishing(w.proc.p)
    case Kill => true
    case _ => w.proc.Working? && EnabledPool(w.proc.p, st)
  }

  function Apply(concurrency: int, w: World, st: Step): World
    requires Enabled(w, st)
  {
    match st
    case Start(metaOk) => w.(proc := if SaysDiscovered(w.db.meta, metaOk) then Loading else Discovering)
    case Discover(slots) =>
      w.(proc := Seeding(slots), found := Members(slots), known := w.db.slots.Keys, seeded := false)
    case Seed(ok) =>
      if ok then w.(proc := Recording, db := w.db.(slots := Seeded(w.db.slots, w.proc.slots)), seeded := true)
      else w.(proc := Ended(Failed))
    case Record(ok) =>
      if ok then w.(proc := Loading, db := w.db.(meta := Upserted(w.db.meta, DISCOVERED, YES)))
      else w.(proc := Ended(Failed))
    case Load(pending, ctx) =>
      w.(proc := if pending == [] then Ended(Finished(0, 0, 0)) else Working(NewPool(concurrency, pending, ctx)))
    case Fail => w.(proc := Ended(Failed))
    case Finish =>
      var p := w.proc.p;
      w.(proc := Ended(if p.ctx then Cancelled else Finished(p.slotsDone, p.failures, |p.pending|)))
    case Kill => w.(proc := Down)
    case Write(ok) =>
      if ok then Committed(w, w.proc.p.results[0]).(proc := Working(ApplyPool(w.proc.p, st)))
      else w.(proc := Working(ApplyPool(w.proc.p, st)))
    case _ => w.(proc := Working(ApplyPool(w.proc.p, st)))
  }

  function Committed(w: World, head: Commit): World {
    w.(db := w.db.(landing := InsertedAll(w.db.landing, head.rows), slots := Marked(w.db.slots, head.slot)),
       log := w.log + [head])
  }

  ghost predicate Executes(concurrency: int, w: World, steps: seq<Step>, w': World)
    decreases |steps|
  {
    if steps == [] then w == w'
    else Enabled(w, steps[0]) && Executes(concurrency, Apply(concurrency, w, steps[0]), steps[1..], w')
  }

  const BLANK: World := World(Db(map[], map[], map[]), Down, {}, {}, false, [])

  predicate Blank(w: World) { w == BLANK }

  /** The mark is set, whether or not a read of it succeeds. */
  predicate Discovered(db: Db) { SaysDiscovered(db.meta, true) }
}
