/**
 Runs whose reads and discoveries are told: when each read of a slot gives rows that `told` allows, and every
 discovery finds the same slots, so does everything committed.
 */
module PipelineReads {
  import opened Store
  import opened Pipeline
  import opened PipelineStore

  /** What a read of a slot may give. */
  type Readings = (Slot, seq<Row>) -> bool

  ghost predicate TrueStep(w: World, st: Step, told: Readings, slots: set<Slot>)
    requires Enabled(w, st)
  {
    match st
    case ReadOk(v, rows) => told(w.proc.p.workers[v].slot, rows)
    case Discover(found) => Members(found) == slots
    case _ => true
  }

  ghost predicate TrueSteps(
      concurrency: int, w: World, steps: seq<Step>, w': World, told: Readings, slots: set<Slot>)
    requires Executes(concurrency, w, steps, w')
    decreases |steps|
  {
    steps != [] ==>
      && TrueStep(w, steps[0], told, slots)
      && TrueSteps(concurrency, Apply(concurrency, w, steps[0]), steps[1..], w', told, slots)
  }

  ghost predicate TruePc(pc: Pc, told: Readings) { pc.Sending? ==> told(pc.slot, pc.rows) }

  ghost predicate TruePool(p: Pool, told: Readings) {
    && (forall v | 0 <= v < |p.workers| :: TruePc(p.workers[v], told))
    && forall i | 0 <= i < |p.results| :: told(p.results[i].slot, p.results[i].rows)
  }

  ghost predicate TrueList(w: World, slots: set<Slot>) {
    && w.db.slots.Keys <= slots
    && (w.db.slots.Keys == {} || w.db.slots.Keys == slots)
    && (w.proc.Seeding? ==> Members(w.proc.slots) == slots)
    && (Discovered(w.db) || w.proc.Recording? ==> w.db.slots.Keys == slots)
  }

  ghost predicate TrueWorld(w: World, told: Readings, slots: set<Slot>) {
    && (w.proc.Working? ==> TruePool(w.proc.p, told))
    && (forall i | 0 <= i < |w.log| :: told(w.log[i].slot, w.log[i].rows))
    && TrueList(w, slots)
  }

  lemma TrueWorker(p: Pool, st: Step, told: Readings)
    requires TruePool(p, told) && EnabledWorker(p, st)
    requires st.ReadOk? ==> told(p.workers[st.w].slot, st.rows)
    ensures TruePool(ApplyWorker(p, st), told)
  {
    var q := ApplyWorker(p, st);
    assert TruePc(p.workers[st.w], told);
    forall v | 0 <= v < |q.workers| ensures TruePc(q.workers[v], told) { assert TruePc(p.workers[v], told); }
  }

  lemma TrueMain(p: Pool, st: Step, told: Readings)
    requires TruePool(p, told) && EnabledMain(p, st)
    ensures TruePool(ApplyMain(p, st), told)
  {
    var q := ApplyMain(p, st);
    forall v | 0 <= v < |q.workers| ensures TruePc(q.workers[v], told) { assert TruePc(p.workers[v], told); }
  }

  lemma TruePoolStep(p: Pool, st: Step, told: Readings)
    requires TruePool(p, told) && EnabledPool(p, st)
    requires EnabledWorker(p, st) && st.ReadOk? ==> told(p.workers[st.w].slot, st.rows)
    ensures TruePool(ApplyPool(p, st), told)
  {
    if EnabledWorker(p, st) { TrueWorker(p, st, told); } else { TrueMain(p, st, told); }
  }

  lemma TrueListStep(concurrency: int, w: World, st: Step, told: Readings, slots: set<Slot>)
    requires Good(w) && TrueList(w, slots) && Enabled(w, st) && TrueStep(w, st, told, slots)
    ensures TrueList(Apply(concurrency, w, st), slots)
  {
    var w' := Apply(concurrency, w, st);
    if st == Seed(true) {
      assert w'.db.slots.Keys == w.db.slots.Keys + slots;
    } else {
      assert w'.db.slots.Keys == w.db.slots.Keys;
    }
  }

  lemma TrueWorldStep(concurrency: int, w: World, st: Step, told: Readings, slots: set<Slot>)
    requires Good(w) && TrueWorld(w, told, slots) && Enabled(w, st) && TrueStep(w, st, told, slots)
    ensures TrueWorld(Apply(concurrency, w, st), told, slots)
  {
    TrueListStep(concurrency, w, st, told, slots);
    if w.proc.Working? && EnabledPool(w.proc.p, st) && !st.Kill? { TruePoolStep(w.proc.p, st, told); }
  }

  lemma {:induction false} TrueRun(
      concurrency: int, w: World, steps: seq<Step>, w': World, told: Readings, slots: set<Slot>)
    requires Good(w) && TrueWorld(w, told, slots) && Executes(concurrency, w, steps, w')
    requires TrueSteps(concurrency, w, steps, w', told, slots)
    ensures TrueWorld(w', told, slots)
    decreases |steps|
  {
    if steps != [] {
      TrueWorldStep(concurrency, w, steps[0], told, slots);
      GoodStep(concurrency, w, steps[0]);
      TrueRun(concurrency, Apply(concurrency, w, steps[0]), steps[1..], w', told, slots);
    }
  }

  lemma {:induction false} AllRowsMembers(log: seq<Commit>)
    ensures forall r :: r in AllRows(log) <==> exists e :: e in log && r in e.rows
  {
    if log != [] {
      var last := log[|log| - 1];
      AllRowsMembers(log[..|log| - 1]);
      assert forall e :: e in log <==> e in log[..|log| - 1] || e == last;
    }
  }

  /** Every row of the table is a committed one, under its own signature, and every committed signature is there. */
  ghost predicate TableOf(table: map<string, Row>, log: seq<Commit>) {
    && (forall key | key in table :: table[key].sig == key && exists e :: e in log && table[key] in e.rows)
    && forall e, r | e in log && r in e.rows :: r.sig in table
  }

  lemma TableFromLog(table: map<string, Row>, log: seq<Commit>)
    requires FirstWins(table, AllRows(log))
    ensures TableOf(table, log)
  {
    AllRowsMembers(log);
    var rows := AllRows(log);
    forall key | key in table ensures table[key].sig == key && exists e :: e in log && table[key] in e.rows {
      var i: nat :| IsFirst(rows, i, key) && table[key] == rows[i];
      assert rows[i] in rows;
    }
    forall e, r | e in log && r in e.rows ensures r.sig in table {
      assert r in rows;
      var i :| 0 <= i < |rows| && rows[i] == r;
    }
  }

  /**
   A nil return with no failures, of a run with true reads and discoveries: every slot found was committed
   once with rows that were read for it, no other slot was, and the table has those rows' signatures.
   */
  lemma CompleteRun(concurrency: int, steps: seq<Step>, w: World, told: Readings, slots: set<Slot>)
    requires Executes(concurrency, BLANK, steps, w) && TrueSteps(concurrency, BLANK, steps, w, told, slots)
    requires w.proc.Ended? && w.proc.r.Finished? && w.proc.r.failures == 0
    ensures Once(w.log) && LogSlots(w.log) == slots
    ensures forall e | e in w.log :: told(e.slot, e.rows)
    ensures TableOf(w.db.landing, w.log)
  {
    GoodRun(concurrency, BLANK, steps, w);
    TrueRun(concurrency, BLANK, steps, w, told, slots);
    CommittedIsFound(w, slots);
    ReplayFirstWins(AllRows(w.log));
    TableFromLog(w.db.landing, w.log);
  }

  lemma CommittedIsFound(w: World, slots: set<Slot>)
    requires Good(w) && TrueList(w, slots) && w.proc.Ended? && w.proc.r.Finished? && w.proc.r.failures == 0
    ensures LogSlots(w.log) == slots
  {
    assert UndoneSlots(w.db) == {};
    forall s ensures s in LogSlots(w.log) <==> s in slots {
      if s in slots { assert s in w.db.slots && s !in UndoneSlots(w.db); }
    }
  }

  // ---- There are such runs ----

  /** Got to from nothing by true reads and discoveries, with one worker. */
  ghost predicate Told(w: World, told: Readings, slots: set<Slot>) {
    exists steps :: Executes(1, BLANK, steps, w) && TrueSteps(1, BLANK, steps, w, told, slots)
  }

  lemma {:induction false} TrueExtended(
      w0: World, steps: seq<Step>, w: World, st: Step, told: Readings, slots: set<Slot>)
    requires Executes(1, w0, steps, w) && TrueSteps(1, w0, steps, w, told, slots)
    requires Enabled(w, st) && TrueStep(w, st, told, slots)
    ensures Executes(1, w0, steps + [st], Apply(1, w, st))
    ensures TrueSteps(1, w0, steps + [st], Apply(1, w, st), told, slots)
    decreases |steps|
  {
    if steps == [] {
      assert (steps + [st])[1..] == [];
    } else {
      assert (steps + [st])[1..] == steps[1..] + [st];
      TrueExtended(Apply(1, w0, steps[0]), steps[1..], w, st, told, slots);
    }
  }

  lemma ToldNext(w: World, st: Step, told: Readings, slots: set<Slot>)
    requires Told(w, told, slots) && Enabled(w, st) && TrueStep(w, st, told, slots)
    ensures Told(Apply(1, w, st), told, slots)
  {
    var steps :| Executes(1, BLANK, steps, w) && TrueSteps(1, BLANK, steps, w, told, slots);
    TrueExtended(BLANK, steps, w, st, told, slots);
  }

  lemma PoolNext(w: World, p: Pool, st: Step, told: Readings, slots: set<Slot>)
    requires Told(w, told, slots) && w.proc == Working(p) && EnabledPool(p, st)
    requires EnabledWorker(p, st) && st.ReadOk? ==> told(p.workers[st.w].slot, st.rows)
    ensures Told(Apply(1, w, st), told, slots) && Apply(1, w, st).proc == Working(ApplyPool(p, st))
  {
    ToldNext(w, st, told, slots);
  }

  /** The pool with one slot and one worker, as far as it has got. */
  function OnePool(slot: Slot, next: nat, closed: bool, worker: Pc, results: seq<Commit>, drained: bool): Pool {
    Pool([slot], next, closed, [worker], results, drained, false, 0, 0, [], [], [])
  }

  lemma OneSlotLoaded(told: Readings, slot: Slot) returns (w: World)
    ensures Told(w, told, {slot}) && w.proc == Working(OnePool(slot, 0, false, Idle, [], false))
  {
    assert Executes(1, BLANK, [], BLANK);
    ToldNext(BLANK, Start(true), told, {slot});
    w := Apply(1, BLANK, Start(true));
    assert Members([slot]) == {slot};
    ToldNext(w, Discover([slot]), told, {slot});
    w := Apply(1, w, Discover([slot]));
    ToldNext(w, Seed(true), told, {slot});
    w := Apply(1, w, Seed(true));
    ToldNext(w, Record(true), told, {slot});
    w := Apply(1, w, Record(true));
    assert w.db.slots == map[slot := false];
    ToldNext(w, Load([slot], false), told, {slot});
    w := Apply(1, w, Load([slot], false));
    assert seq(1, i => Pc.Idle) == [Pc.Idle];
  }

  lemma OneSlotRead(told: Readings, slot: Slot, rows: seq<Row>) returns (w: World)
    requires told(slot, rows)
    ensures Told(w, told, {slot}) && w.proc == Working(OnePool(slot, 1, false, Sending(slot, rows), [], false))
  {
    w := OneSlotLoaded(told, slot);
    PoolNext(w, OnePool(slot, 0, false, Idle, [], false), Dispatch(0), told, {slot});
    w := Apply(1, w, Dispatch(0));
    PoolNext(w, OnePool(slot, 1, false, Reading(slot), [], false), ReadOk(0, rows), told, {slot});
    w := Apply(1, w, ReadOk(0, rows));
  }

  lemma OneSlotSent(told: Readings, slot: Slot, rows: seq<Row>) returns (w: World)
    requires told(slot, rows)
    ensures Told(w, told, {slot})
    ensures w.proc == Working(OnePool(slot, 1, true, Idle, [Commit(slot, rows)], false))
  {
    w := OneSlotRead(told, slot, rows);
    PoolNext(w, OnePool(slot, 1, false, Sending(slot, rows), [], false), Send(0), told, {slot});
    w := Apply(1, w, Send(0));
    PoolNext(w, OnePool(slot, 1, false, Idle, [Commit(slot, rows)], false), EndDispatch, told, {slot});
    w := Apply(1, w, EndDispatch);
  }

  lemma OneSlotDrained(told: Readings, slot: Slot, rows: seq<Row>) returns (w: World)
    requires told(slot, rows)
    ensures Told(w, told, {slot})
    ensures w.proc == Working(OnePool(slot, 1, true, Exited, [Commit(slot, rows)], true))
  {
    var done := [Commit(slot, rows)];
    w := OneSlotSent(told, slot, rows);
    PoolNext(w, OnePool(slot, 1, true, Idle, done, false), Leave(0), told, {slot});
    w := Apply(1, w, Leave(0));
    PoolNext(w, OnePool(slot, 1, true, Exited, done, false), CloseResults, told, {slot});
    w := Apply(1, w, CloseResults);
  }

  /** One slot, found, read and committed. */
  lemma OneSlotRun(told: Readings, slot: Slot, rows: seq<Row>)
    requires told(slot, rows)
    ensures exists steps, w ::
              && Executes(1, BLANK, steps, w) && TrueSteps(1, BLANK, steps, w, told, {slot})
              && w.proc == Ended(Finished(1, 0, 1))
  {
    var p := OnePool(slot, 1, true, Exited, [Commit(slot, rows)], true);
    var w := OneSlotDrained(told, slot, rows);
    PoolNext(w, p, Write(true), told, {slot});
    w := Apply(1, w, Write(true));
    ToldNext(w, Finish, told, {slot});
    w := Apply(1, w, Finish);
  }
}
