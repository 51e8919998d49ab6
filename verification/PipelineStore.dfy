/**
 Exactly once, over any number of runs, cancels and kills: the landing table is what the committed slots
 wrote, each slot commits once, nothing committed changes, and what a nil return leaves behind.
 */
module PipelineStore {
  import opened Prelude
  import opened Store
  import opened Pipeline
  import opened PipelinePool

  // ---- The table replays the log ----

  /** The rows of the committed slots, in commit order. */
  function AllRows(log: seq<Commit>): seq<Row> {
    if log == [] then [] else AllRows(log[..|log| - 1]) + log[|log| - 1].rows
  }

  lemma {:induction false} InsertedInParts(rows: map<string, Row>, a: seq<Row>, b: seq<Row>)
    ensures InsertedAll(rows, a + b) == InsertedAll(InsertedAll(rows, a), b)
  {
    if b == [] {
      assert a + b == a;
    } else {
      InsertedInParts(rows, a, b[..|b| - 1]);
      assert (a + b)[..|a + b| - 1] == a + b[..|b| - 1];
    }
  }

  function LogSlots(log: seq<Commit>): set<Slot> { set e | e in log :: e.slot }

  ghost predicate Once(log: seq<Commit>) {
    forall i, j | 0 <= i < j < |log| :: log[i].slot != log[j].slot
  }

  ghost predicate Table(w: World) { w.db.landing == InsertedAll(map[], AllRows(w.log)) }

  ghost predicate Flags(w: World) {
    && Once(w.log)
    && forall s :: s in w.db.slots && w.db.slots[s] <==> s in LogSlots(w.log)
  }

  /** Nothing is recorded before it is seeded, nor processed before it is recorded; only seeding adds slots. */
  ghost predicate Found(w: World) {
    && (if w.seeded then w.found <= w.db.slots.Keys else w.db.slots.Keys == w.known)
    && match w.proc
       case Seeding(slots) => !w.seeded && w.found == Members(slots)
       case Recording => w.seeded
       case Loading => Discovered(w.db)
       case Working(_) => Discovered(w.db)
       case Ended(r) => r.Finished? ==> Discovered(w.db)
       case _ => true
  }

  /** The slots without a done flag are those of the work list not yet written. */
  ghost predicate Undone(db: Db, p: Pool) {
    forall s :: s in db.slots && !db.slots[s] <==> s in p.pending && s !in p.written
  }

  function UndoneSlots(db: Db): set<Slot> { set s | s in db.slots && !db.slots[s] }

  /** A nil return's counters add up, and as many slots are left without a done flag as were counted failed. */
  ghost predicate NilReturn(db: Db, r: Result) {
    r.Finished? ==> r.slotsDone + r.failures == r.pending && |UndoneSlots(db)| == r.failures
  }

  ghost predicate Running(w: World) {
    match w.proc
    case Working(p) => PoolSafe(p) && Undone(w.db, p)
    case Ended(r) => NilReturn(w.db, r)
    case _ => true
  }

  ghost predicate Good(w: World) { Table(w) && Flags(w) && Found(w) && Running(w) }

  // ---- One step ----

  lemma {:induction false} CopiesWhenAscending(xs: seq<Slot>, s: Slot)
    requires Ascending(xs)
    ensures Copies(xs, s) <= 1
  {
    if xs != [] {
      var rest := xs[..|xs| - 1];
      assert xs == rest + [xs[|xs| - 1]];
      CopiesWhenAscending(rest, s);
      if s == xs[|xs| - 1] { assert s !in rest; }
    }
  }

  /** The slot the writer has in hand is in the work list, and was not written before. */
  lemma HeadIsUndone(p: Pool)
    requires PoolSafe(p) && p.results != []
    ensures p.results[0].slot in p.pending && p.results[0].slot !in p.written
  {
    var s := p.results[0].slot;
    assert Kept(p, s) && Queued(p.results, s) >= 1;
    CopiesWhenAscending(p.pending, s);
  }

  lemma UndoneWritten(db: Db, db': Db, p: Pool)
    requires PoolSafe(p) && p.results != [] && Undone(db, p)
    requires db'.slots == Marked(db.slots, p.results[0].slot)
    ensures Undone(db', ApplyMain(p, Write(true)))
  {
    HeadIsUndone(p);
  }

  lemma TableGrows(w: World, head: Commit)
    requires Table(w)
    ensures Table(Committed(w, head))
  {
    var log := w.log + [head];
    assert log[..|log| - 1] == w.log;
    InsertedInParts(map[], AllRows(w.log), head.rows);
  }

  lemma FlagsGrow(w: World, head: Commit)
    requires Flags(w) && head.slot in w.db.slots && !w.db.slots[head.slot]
    ensures Flags(Committed(w, head))
  {
    var log := w.log + [head];
    assert forall e :: e in log <==> e in w.log || e == head;
    assert forall i | 0 <= i < |w.log| :: w.log[i].slot in LogSlots(w.log);
  }

  lemma HeadIsLeft(db: Db, p: Pool)
    requires PoolSafe(p) && p.results != [] && Undone(db, p)
    ensures p.results[0].slot in db.slots && !db.slots[p.results[0].slot]
  {
    HeadIsUndone(p);
  }

  lemma WriteGrows(w: World, p: Pool)
    requires Table(w) && Flags(w) && PoolSafe(p) && p.results != [] && Undone(w.db, p)
    ensures var grown := Committed(w, p.results[0]);
            Table(grown) && Flags(grown) && Undone(grown.db, ApplyMain(p, Write(true)))
  {
    HeadIsLeft(w.db, p);
    TableGrows(w, p.results[0]);
    FlagsGrow(w, p.results[0]);
    UndoneWritten(w.db, Committed(w, p.results[0]).db, p);
  }

  lemma WriteStep(concurrency: int, w: World, st: Step)
    requires Good(w) && Enabled(w, st) && st == Write(true)
    ensures Good(Apply(concurrency, w, st))
  {
    var p := w.proc.p;
    WriteGrows(w, p);
    PoolStep(p, st);
    GoodWritten(w, Committed(w, p.results[0]), ApplyMain(p, st));
  }

  lemma GoodWritten(w: World, grown: World, p: Pool)
    requires Found(w) && w.proc.Working? && Table(grown) && Flags(grown)
    requires grown.db.slots.Keys == w.db.slots.Keys && grown.db.meta == w.db.meta
    requires (grown.found, grown.known, grown.seeded) == (w.found, w.known, w.seeded)
    requires PoolSafe(p) && Undone(grown.db, p)
    ensures Good(grown.(proc := Working(p)))
  {}

  lemma PoolRunning(concurrency: int, w: World, st: Step)
    requires Good(w) && w.proc.Working? && EnabledPool(w.proc.p, st) && st != Write(true)
    ensures Good(Apply(concurrency, w, st))
  {
    PoolStep(w.proc.p, st);
    assert ApplyPool(w.proc.p, st).written == w.proc.p.written;
  }

  lemma SeedStep(concurrency: int, w: World)
    requires Good(w) && Enabled(w, Seed(true))
    ensures Good(Apply(concurrency, w, Seed(true)))
  {
  }

  lemma LoadStep(concurrency: int, w: World, pending: seq<Slot>, ctx: bool)
    requires Good(w) && Enabled(w, Load(pending, ctx))
    ensures Good(Apply(concurrency, w, Load(pending, ctx)))
  {
    NewPoolSafe(concurrency, pending, ctx);
    if pending == [] { assert UndoneSlots(w.db) == {}; }
  }

  lemma {:induction false} SetOfDistinct(xs: seq<Slot>)
    requires forall s :: Copies(xs, s) <= 1
    ensures |Members(xs)| == |xs|
  {
    if xs != [] {
      var rest, x := xs[..|xs| - 1], xs[|xs| - 1];
      assert xs == rest + [x];
      forall s ensures Copies(rest, s) <= 1 { assert Copies(xs, s) <= 1; }
      SetOfDistinct(rest);
      CopiesPush(rest, x, x);
      assert Copies(xs, x) <= 1 && x !in rest;
      assert Members(xs) == Members(rest) + {x};
    }
  }

  /** Without a cancel, the slots left undone are the failed ones. */
  lemma FinishedUndone(db: Db, p: Pool)
    requires PoolSafe(p) && Finishing(p) && !p.ctx && Undone(db, p)
    ensures |UndoneSlots(db)| == p.failures
  {
    FinishedPool(p);
    forall s ensures Copies(p.written, s) + Copies(p.failed, s) == Copies(p.pending, s) <= 1 {
      assert multiset(p.written + p.failed)[s] == multiset(p.pending)[s];
      CopiesWhenAscending(p.pending, s);
    }
    SetOfDistinct(p.failed);
    forall s ensures s in UndoneSlots(db) <==> s in p.failed {
      assert Copies(p.written, s) + Copies(p.failed, s) == Copies(p.pending, s) <= 1;
    }
    assert UndoneSlots(db) == Members(p.failed);
  }

  lemma FinishStep(concurrency: int, w: World)
    requires Good(w) && Enabled(w, Finish)
    ensures Good(Apply(concurrency, w, Finish))
  {
    var p := w.proc.p;
    if !p.ctx {
      FinishedPool(p);
      FinishedUndone(w.db, p);
    }
  }

  lemma GoodStep(concurrency: int, w: World, st: Step)
    requires Good(w) && Enabled(w, st)
    ensures Good(Apply(concurrency, w, st))
  {
    match st
    case Start(_) => {}
    case Discover(_) => {}
    case Seed(ok) => if ok { SeedStep(concurrency, w); }
    case Record(_) => {}
    case Load(pending, ctx) => LoadStep(concurrency, w, pending, ctx);
    case Fail => {}
    case Finish => FinishStep(concurrency, w);
    case Kill => {}
    case _ => if st == Write(true) { WriteStep(concurrency, w, st); } else { PoolRunning(concurrency, w, st); }
  }

  lemma {:induction false} GoodRun(concurrency: int, w: World, steps: seq<Step>, w': World)
    requires Good(w) && Executes(concurrency, w, steps, w')
    ensures Good(w')
    decreases |steps|
  {
    if steps != [] {
      GoodStep(concurrency, w, steps[0]);
      GoodRun(concurrency, Apply(concurrency, w, steps[0]), steps[1..], w');
    }
  }

  /** `table` has a row for each signature in `rows` and for no other, and it is the first with that signature. */
  ghost predicate FirstWins(table: map<string, Row>, rows: seq<Row>) {
    && (forall key | key in table :: exists i: nat :: IsFirst(rows, i, key) && table[key] == rows[i])
    && (forall i: nat | i < |rows| :: rows[i].sig in table)
  }

  lemma ReplayFirstWins(rows: seq<Row>)
    ensures FirstWins(InsertedAll(map[], rows), rows)
  {
    var table := InsertedAll(map[], rows);
    InsertKeeps(map[], rows);
    forall key | key in table ensures exists i: nat :: IsFirst(rows, i, key) && table[key] == rows[i] {
      InsertTakesFirst(map[], rows, key);
    }
  }

  /** When no signature comes twice, that is the union: every committed row is there as it was written. */
  lemma DistinctRowsAllThere(table: map<string, Row>, rows: seq<Row>, i: nat)
    requires FirstWins(table, rows) && i < |rows|
    requires forall j, k | 0 <= j < k < |rows| :: rows[j].sig != rows[k].sig
    ensures rows[i].sig in table && table[rows[i].sig] == rows[i]
  {
    var j: nat :| IsFirst(rows, j, rows[i].sig) && table[rows[i].sig] == rows[j];
    assert i == j;
  }

  // ---- Main results ----

  /** In every reachable state the done flags are the log's slots, each there once. */
  lemma ExactlyOnce(concurrency: int, w0: World, steps: seq<Step>, w: World)
    requires Blank(w0) && Executes(concurrency, w0, steps, w)
    ensures forall i, j | 0 <= i < j < |w.log| :: w.log[i].slot != w.log[j].slot
    ensures forall s :: s in w.db.slots && w.db.slots[s] <==> exists e :: e in w.log && e.slot == s
  {
    GoodRun(concurrency, w0, steps, w);
    assert forall s :: s in LogSlots(w.log) <==> exists e :: e in w.log && e.slot == s;
  }

  /** In every reachable state the landing table is the rows of the done slots, the first of each signature. */
  lemma TableIsTheCommitted(concurrency: int, w0: World, steps: seq<Step>, w: World)
    requires Blank(w0) && Executes(concurrency, w0, steps, w)
    ensures FirstWins(w.db.landing, AllRows(w.log))
  {
    GoodRun(concurrency, w0, steps, w);
    ReplayFirstWins(AllRows(w.log));
  }

  /** A nil return: the counters add up to the work list, and exactly the failures are left to do. */
  lemma NilMeansFailuresLeft(concurrency: int, w0: World, steps: seq<Step>, w: World)
    requires Blank(w0) && Executes(concurrency, w0, steps, w) && w.proc.Ended? && w.proc.r.Finished?
    ensures w.proc.r.slotsDone + w.proc.r.failures == w.proc.r.pending
    ensures |UndoneSlots(w.db)| == w.proc.r.failures
  {
    GoodRun(concurrency, w0, steps, w);
  }

  /** What was committed stays: rows, done flags, the work list, the discovered mark, and the log. */
  ghost predicate Extends(w: World, w': World) {
    && (forall k | k in w.db.landing :: k in w'.db.landing && w'.db.landing[k] == w.db.landing[k])
    && (forall s | s in w.db.slots :: s in w'.db.slots && (w.db.slots[s] ==> w'.db.slots[s]))
    && (Discovered(w.db) ==> Discovered(w'.db))
    && w.log <= w'.log
  }

  lemma ExtendsStep(concurrency: int, w: World, st: Step)
    requires Enabled(w, st)
    ensures Extends(w, Apply(concurrency, w, st))
  {
    if st == Write(true) { InsertKeeps(w.db.landing, w.proc.p.results[0].rows); }
  }

  lemma {:induction false} NothingReverts(concurrency: int, w: World, steps: seq<Step>, w': World)
    requires Executes(concurrency, w, steps, w')
    ensures Extends(w, w')
    decreases |steps|
  {
    if steps != [] {
      ExtendsStep(concurrency, w, steps[0]);
      NothingReverts(concurrency, Apply(concurrency, w, steps[0]), steps[1..], w');
    }
  }

  /** Conservation: in every reachable state of the pool, each slot of the work list is in one place. */
  lemma EachSlotInOnePlace(concurrency: int, w0: World, steps: seq<Step>, w: World, s: Slot)
    requires Blank(w0) && Executes(concurrency, w0, steps, w) && w.proc.Working?
    ensures var p := w.proc.p;
            && p.next <= |p.pending|
            && Undispatched(p, s) + Held(p.workers, s) + Queued(p.results, s)
               + Copies(p.written, s) + Copies(p.failed, s) + Copies(p.dropped, s)
               == One(s in p.pending)
    ensures w.proc.p.dropped != [] ==> w.proc.p.ctx
    ensures s in w.db.slots && !w.db.slots[s] <==> s in w.proc.p.pending && s !in w.proc.p.written
  {
    GoodRun(concurrency, w0, steps, w);
    assert Kept(w.proc.p, s);
    CopiesWhenAscending(w.proc.p.pending, s);
  }

  /** No deadlock: a pool that is running can go on without a cancel or a failure, or has come to its end. */
  lemma NoDeadlock(concurrency: int, w0: World, steps: seq<Step>, w: World)
    requires Blank(w0) && Executes(concurrency, w0, steps, w) && w.proc.Working?
    ensures Finishing(w.proc.p) || CanStep(w.proc.p)
  {
    GoodRun(concurrency, w0, steps, w);
    if !Finishing(w.proc.p) { PoolNoDeadlock(w.proc.p); }
  }

  /** Termination: every step of the pool lowers a rank that stays non-negative. */
  lemma EveryStepDescends(concurrency: int, w0: World, steps: seq<Step>, w: World, st: Step)
    requires Blank(w0) && Executes(concurrency, w0, steps, w) && w.proc.Working? && EnabledPool(w.proc.p, st)
    ensures 0 <= Rank(ApplyPool(w.proc.p, st)) < Rank(w.proc.p)
  {
    GoodRun(concurrency, w0, steps, w);
    RankStep(w.proc.p, st);
  }
}
