/**
 What process returns, and that a run in which nothing goes wrong comes to its nil return with everything
 committed, from wherever an earlier one left off.
 */
module PipelineVerdict {
  import opened Store
  import opened Pipeline
  import opened PipelinePool
  import opened PipelineStore

  /** As many readers as asked for, or 32. */
  lemma PoolIsSized(concurrency: int, pending: seq<Slot>, ctx: bool)
    ensures |NewPool(concurrency, pending, ctx).workers| == if concurrency > 0 then concurrency else 32
  {}

  /** Every read and every write may fail, the caller may cancel, and the process may be killed. */
  lemma AnythingMayFail(w: World, v: nat)
    requires w.proc.Working? && At(w.proc.p, v)
    ensures var p := w.proc.p;
            && (p.workers[v].Reading? ==> Enabled(w, ReadFail(v)) && forall rows :: Enabled(w, ReadOk(v, rows)))
            && (p.workers[v].Sending? && p.ctx ==> Enabled(w, Drop(v)))
            && (p.results != [] ==> Enabled(w, Write(false)))
            && (!p.ctx ==> Enabled(w, CancelCtx))
            && Enabled(w, Kill)
  {}

  /**
   In every reachable state a pool at its end returns the cancel, if there was one, and else nil, with the slots
   written and the slots failed for its counters.
   */
  lemma EndVerdict(concurrency: int, w0: World, steps: seq<Step>, w: World)
    requires Blank(w0) && Executes(concurrency, w0, steps, w) && w.proc.Working? && Finishing(w.proc.p)
    ensures var p := w.proc.p;
            Enabled(w, Finish) &&
            Apply(concurrency, w, Finish).proc
            == Ended(if p.ctx then Cancelled else Finished(|p.written|, |p.failed|, |p.pending|))
  {
    GoodRun(concurrency, w0, steps, w);
  }

  /** A run that is cancelled, from its start or later, does not return nil. */
  predicate NotNil(w: World) {
    match w.proc
    case Working(p) => p.ctx
    case Ended(r) => !r.Finished?
    case Down => true
    case _ => false
  }

  lemma {:induction false} CancelledIsNotNil(concurrency: int, w: World, steps: seq<Step>, w': World)
    requires NotNil(w) && Executes(concurrency, w, steps, w') && forall st | st in steps :: !st.Start?
    ensures NotNil(w')
    decreases |steps|
  {
    if steps != [] {
      assert steps[0] in steps;
      CancelledIsNotNil(concurrency, Apply(concurrency, w, steps[0]), steps[1..], w');
    }
  }

  lemma CancelledAtLoad(concurrency: int, w: World, pending: seq<Slot>)
    requires Enabled(w, Load(pending, true)) && pending != []
    ensures NotNil(Apply(concurrency, w, Load(pending, true)))
  {}

  function Gone(ws: seq<Pc>): nat {
    if ws == [] then 0 else One(ws[0].Exited?) + Gone(ws[1..])
  }

  lemma {:induction false} GoneMove(ws: seq<Pc>, w: nat, pc: Pc)
    requires w < |ws|
    ensures Gone(ws[w := pc]) == Gone(ws) - One(ws[w].Exited?) + One(pc.Exited?) && Gone(ws) <= |ws|
    decreases |ws|
  {
    if w > 0 {
      GoneMove(ws[1..], w - 1, pc);
      assert ws[w := pc][1..] == ws[1..][w - 1 := pc];
    } else {
      if |ws| > 1 { GoneMove(ws[1..], 0, ws[1]); }
      assert ws[w := pc][1..] == ws[1..];
    }
  }

  /** Each worker drops at most one result, and no more results wait than there are workers. */
  predicate Bounded(p: Pool) { |p.dropped| <= Gone(p.workers) <= |p.workers| && |p.results| <= |p.workers| }

  lemma BoundedStep(p: Pool, st: Step)
    requires Bounded(p) && EnabledPool(p, st)
    ensures Bounded(ApplyPool(p, st))
  {
    if EnabledWorker(p, st) {
      var pc := ApplyWorker(p, st).workers[st.w];
      GoneMove(p.workers, st.w, pc);
      GoneMove(ApplyWorker(p, st).workers, st.w, pc);
    }
  }

  lemma {:induction false} NoneGone(ws: seq<Pc>)
    requires forall w | 0 <= w < |ws| :: ws[w].Idle?
    ensures Gone(ws) == 0
  {
    if ws != [] { NoneGone(ws[1..]); }
  }

  ghost predicate BoundedWorld(w: World) { w.proc.Working? ==> Bounded(w.proc.p) }

  /** Over all runs: a cancel throws away at most one block read per worker. */
  lemma {:induction false} CancelDropsFew(concurrency: int, w: World, steps: seq<Step>, w': World)
    requires BoundedWorld(w) && Executes(concurrency, w, steps, w')
    ensures BoundedWorld(w')
    decreases |steps|
  {
    if steps != [] {
      var next := Apply(concurrency, w, steps[0]);
      if steps[0].Load? && next.proc.Working? { NoneGone(next.proc.p.workers); }
      else if w.proc.Working? && EnabledPool(w.proc.p, steps[0]) { BoundedStep(w.proc.p, steps[0]); }
      CancelDropsFew(concurrency, next, steps[1..], w');
    }
  }

  // ---- A run in which nothing goes wrong ----

  predicate Fine(st: Step) {
    match st
    case ReadFail(_) => false
    case Write(ok) => ok
    case Seed(ok) => ok
    case Record(ok) => ok
    case Load(_, ctx) => !ctx
    case CancelCtx => false
    case Fail => false
    case Kill => false
    case Start(metaOk) => metaOk
    case _ => true
  }

  /** Neither cancelled nor with a slot that failed or was dropped. */
  predicate Clean(w: World) {
    match w.proc
    case Working(p) => !p.ctx && p.failed == [] && p.dropped == []
    case Ended(r) => r.Finished? && r.failures == 0
    case _ => true
  }

  lemma CleanStep(concurrency: int, w: World, st: Step)
    requires Good(w) && Clean(w) && Enabled(w, st) && Fine(st)
    ensures Clean(Apply(concurrency, w, st))
  {}

  lemma {:induction false} CleanRun(concurrency: int, w: World, steps: seq<Step>, w': World)
    requires Good(w) && Clean(w) && Executes(concurrency, w, steps, w') && forall st | st in steps :: Fine(st)
    ensures Good(w') && Clean(w')
    decreases |steps|
  {
    if steps != [] {
      assert steps[0] in steps;
      CleanStep(concurrency, w, steps[0]);
      GoodStep(concurrency, w, steps[0]);
      CleanRun(concurrency, Apply(concurrency, w, steps[0]), steps[1..], w');
    }
  }

  /** The run's own steps, up to its return, and all of them fine. */
  ghost predicate Completes(concurrency: int, w: World) {
    exists steps, w' ::
      && Executes(concurrency, w, steps, w') && w'.proc.Ended? && forall st | st in steps :: Fine(st) && !st.Start?
  }

  lemma CompletesFrom(concurrency: int, w: World, st: Step)
    requires Enabled(w, st) && Fine(st) && !st.Start? && Completes(concurrency, Apply(concurrency, w, st))
    ensures Completes(concurrency, w)
  {
    var rest, w' :|
      && Executes(concurrency, Apply(concurrency, w, st), rest, w') && w'.proc.Ended?
      && forall st' | st' in rest :: Fine(st') && !st'.Start?;
    var steps := [st] + rest;
    assert steps[1..] == rest;
    assert forall st' | st' in steps :: st' == st || st' in rest;
    assert Executes(concurrency, w, steps, w');
  }

  lemma FinishCompletes(concurrency: int, w: World)
    requires w.proc.Working? && Finishing(w.proc.p)
    ensures Completes(concurrency, w)
  {
    var w' := Apply(concurrency, w, Finish);
    assert Executes(concurrency, w', [], w');
    CompletesFrom(concurrency, w, Finish);
  }

  lemma {:induction false} PoolCompletes(concurrency: int, w: World)
    requires Good(w) && w.proc.Working?
    ensures Completes(concurrency, w)
    decreases Rank(w.proc.p)
  {
    var p := w.proc.p;
    if Finishing(p) {
      FinishCompletes(concurrency, w);
    } else {
      PoolNoDeadlock(p);
      var st :| EnabledPool(p, st) && !st.CancelCtx? && !st.ReadFail? && st != Write(false);
      GoodStep(concurrency, w, st);
      RankStep(p, st);
      PoolCompletes(concurrency, Apply(concurrency, w, st));
      CompletesFrom(concurrency, w, st);
    }
  }

  lemma {:induction false} PendingExists(undone: set<Slot>) returns (out: seq<Slot>)
    ensures (forall s :: s in out <==> s in undone) && Prelude.Ascending(out)
    decreases undone
  {
    out := [];
    if undone != {} {
      var s := Least(undone);
      var rest := PendingExists(undone - {s});
      out := [s] + rest;
      assert forall t :: t in out <==> t == s || t in rest;
      assert forall i | 0 <= i < |rest| :: rest[i] in rest;
    }
  }

  lemma LoadCompletes(concurrency: int, w: World)
    requires Good(w) && w.proc.Loading?
    ensures Completes(concurrency, w)
  {
    var pending := PendingExists(UndoneSlots(w.db));
    var st := Load(pending, false);
    assert IsPending(w.db.slots, pending);
    var w' := Apply(concurrency, w, st);
    GoodStep(concurrency, w, st);
    if pending == [] { assert Executes(concurrency, w', [], w'); } else { PoolCompletes(concurrency, w'); }
    CompletesFrom(concurrency, w, st);
  }

  lemma DiscoveryCompletes(concurrency: int, w: World, slots: seq<Slot>)
    requires Good(w) && w.proc.Discovering?
    ensures Completes(concurrency, Apply(concurrency, w, Discover(slots)))
  {
    var w1 := Apply(concurrency, w, Discover(slots));
    GoodStep(concurrency, w, Discover(slots));
    var w2 := Apply(concurrency, w1, Seed(true));
    GoodStep(concurrency, w1, Seed(true));
    var w3 := Apply(concurrency, w2, Record(true));
    GoodStep(concurrency, w2, Record(true));
    LoadCompletes(concurrency, w3);
    CompletesFrom(concurrency, w2, Record(true));
    CompletesFrom(concurrency, w1, Seed(true));
  }

  /** Nil, with no failures, and nothing left to do. */
  ghost predicate AllDone(w: World) {
    && w.proc.Ended? && w.proc.r.Finished? && w.proc.r.failures == 0
    && forall s | s in w.db.slots :: w.db.slots[s]
  }

  /**
   A backfill that works finishes the work list.  Whatever interrupted runs came before, a run in which nothing
   goes wrong can go on to its return, whatever it discovers; and however it goes, if it returns it returns nil
   with no failures and every slot of the work list done.
   */
  lemma FineRunFinishes(concurrency: int, w0: World, before: seq<Step>, w: World)
    requires Blank(w0) && Executes(concurrency, w0, before, w) && Enabled(w, Start(true))
    ensures var started := Apply(concurrency, w, Start(true));
            if started.proc.Loading? then Completes(concurrency, started)
            else started.proc.Discovering?
                 && forall slots :: Completes(concurrency, Apply(concurrency, started, Discover(slots)))
    ensures forall steps, w' |
              && Executes(concurrency, Apply(concurrency, w, Start(true)), steps, w') && w'.proc.Ended?
              && (forall st | st in steps :: Fine(st) && !st.Start?) :: AllDone(w')
  {
    var started := Apply(concurrency, w, Start(true));
    GoodRun(concurrency, w0, before, w);
    GoodStep(concurrency, w, Start(true));
    if started.proc.Loading? { LoadCompletes(concurrency, started); }
    else {
      forall slots ensures Completes(concurrency, Apply(concurrency, started, Discover(slots))) {
        DiscoveryCompletes(concurrency, started, slots);
      }
    }
    forall steps, w' |
      && Executes(concurrency, started, steps, w') && w'.proc.Ended?
      && (forall st | st in steps :: Fine(st) && !st.Start?)
      ensures AllDone(w')
    {
      CleanRun(concurrency, started, steps, w');
      assert UndoneSlots(w'.db) == {};
      forall s | s in w'.db.slots ensures w'.db.slots[s] { assert s !in UndoneSlots(w'.db); }
    }
  }
}
