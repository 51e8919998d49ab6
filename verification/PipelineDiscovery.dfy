/**
 What the discovered mark is worth.  Reading it can fail, and then discovery runs again under a mark that
 speaks of an earlier one: the mark vouches for the last discovery exactly when that one was seeded, or
 brought nothing new.
 */
module PipelineDiscovery {
  import opened Store
  import opened Pipeline
  import opened PipelineStore

  /** The last discovery is in the work list exactly when it was seeded or all of it was there before. */
  lemma FoundIffSeeded(concurrency: int, w0: World, steps: seq<Step>, w: World)
    requires Blank(w0) && Executes(concurrency, w0, steps, w)
    ensures w.found <= w.db.slots.Keys <==> w.seeded || w.found <= w.known
    ensures w.proc.Recording? ==> w.seeded
  {
    GoodRun(concurrency, w0, steps, w);
  }

  ghost predicate DoneAndCommitted(w: World, slot: Slot) {
    slot in w.db.slots && w.db.slots[slot] && exists e :: e in w.log && e.slot == slot
  }

  /**
   A nil return with no failures: every slot of the work list is done and committed, and so every slot of
   the last discovery, exactly when that one was seeded or brought nothing new.
   */
  lemma NilWithoutFailuresIsComplete(concurrency: int, w0: World, steps: seq<Step>, w: World)
    requires Blank(w0) && Executes(concurrency, w0, steps, w)
    requires w.proc.Ended? && w.proc.r.Finished? && w.proc.r.failures == 0
    ensures forall slot | slot in w.db.slots :: DoneAndCommitted(w, slot)
    ensures (forall slot | slot in w.found :: DoneAndCommitted(w, slot)) <==> w.seeded || w.found <= w.known
  {
    GoodRun(concurrency, w0, steps, w);
    forall slot | slot in w.db.slots ensures DoneAndCommitted(w, slot) {
      assert slot !in UndoneSlots(w.db);
      assert slot in LogSlots(w.log);
    }
  }

  // ---- When every read of the mark succeeds ----

  predicate MarkRead(steps: seq<Step>) { forall st | st in steps && st.Start? :: st.metaOk }

  ghost predicate MarkTrue(w: World) {
    && (Discovered(w.db) ==> w.seeded)
    && (w.proc.Discovering? || w.proc.Seeding? ==> !Discovered(w.db))
  }

  lemma {:induction false} MarkTrueRun(concurrency: int, w: World, steps: seq<Step>, w': World)
    requires Good(w) && MarkTrue(w) && Executes(concurrency, w, steps, w') && MarkRead(steps)
    ensures MarkTrue(w')
    decreases |steps|
  {
    if steps != [] {
      GoodStep(concurrency, w, steps[0]);
      assert steps[0] in steps;
      MarkTrueRun(concurrency, Apply(concurrency, w, steps[0]), steps[1..], w');
    }
  }

  /** Then a set mark means that the last discovery is in the work list. */
  lemma MarkVouches(concurrency: int, w0: World, steps: seq<Step>, w: World)
    requires Blank(w0) && Executes(concurrency, w0, steps, w) && MarkRead(steps)
    ensures Discovered(w.db) ==> w.seeded && w.found <= w.db.slots.Keys
  {
    MarkTrueRun(concurrency, w0, steps, w);
    GoodRun(concurrency, w0, steps, w);
  }

  // ---- Runs that show the conditions are needed ----

  ghost predicate Reached(concurrency: int, w: World) { exists steps :: Executes(concurrency, BLANK, steps, w) }

  lemma {:induction false} Extended(concurrency: int, w0: World, steps: seq<Step>, w: World, st: Step)
    requires Executes(concurrency, w0, steps, w) && Enabled(w, st)
    ensures Executes(concurrency, w0, steps + [st], Apply(concurrency, w, st))
    decreases |steps|
  {
    if steps == [] {
      assert (steps + [st])[1..] == [];
    } else {
      assert (steps + [st])[1..] == steps[1..] + [st];
      Extended(concurrency, Apply(concurrency, w0, steps[0]), steps[1..], w, st);
    }
  }

  lemma Next(concurrency: int, w: World, st: Step) returns (w': World)
    requires Reached(concurrency, w) && Enabled(w, st)
    ensures w' == Apply(concurrency, w, st) && Reached(concurrency, w')
  {
    var steps :| Executes(concurrency, BLANK, steps, w);
    Extended(concurrency, BLANK, steps, w, st);
    w' := Apply(concurrency, w, st);
  }

  /** A first run from nothing that finds `slots`, up to where they are pending. */
  function FirstRun(slots: seq<Slot>): World {
    World(
      Db(map s | s in slots :: false, map[DISCOVERED := YES], map[]), Loading, Members(slots), {}, true, [])
  }

  lemma FirstRunReached(concurrency: int, slots: seq<Slot>)
    ensures Reached(concurrency, FirstRun(slots))
  {
    assert Executes(concurrency, BLANK, [], BLANK);
    var w := Next(concurrency, BLANK, Start(true));
    w := Next(concurrency, w, Discover(slots));
    w := Next(concurrency, w, Seed(true));
    w := Next(concurrency, w, Record(true));
    assert map[][DISCOVERED := YES] == map[DISCOVERED := YES];
    assert w == FirstRun(slots);
  }

  /** The mark is set, its read fails, rediscovery finds a slot more and is not seeded, and the next run returns nil. */
  lemma MarkCanMissASlot(concurrency: int, slot: Slot)
    ensures exists w :: Reached(concurrency, w) && w.proc == Ended(Finished(0, 0, 0))
                        && Discovered(w.db) && slot in w.found && slot !in w.db.slots
  {
    FirstRunReached(concurrency, []);
    var w := Next(concurrency, FirstRun([]), Kill);
    w := Next(concurrency, w, Start(false));
    w := Next(concurrency, w, Discover([slot]));
    w := Next(concurrency, w, Seed(false));
    w := Next(concurrency, w, Start(true));
    w := Next(concurrency, w, Load([], false));
    assert slot in Members([slot]);
  }

  lemma OneReadFails(slot: Slot) returns (w: World)
    ensures Reached(1, w) && w == FirstRun([slot]).(proc := w.proc)
    ensures w.proc == Working(Pool([slot], 1, false, [Idle], [], false, false, 0, 1, [], [slot], []))
  {
    FirstRunReached(1, [slot]);
    w := Next(1, FirstRun([slot]), Load([slot], false));
    assert seq(1, i => Pc.Idle) == [Pc.Idle];
    w := Next(1, w, Dispatch(0));
    w := Next(1, w, ReadFail(0));
  }

  /** One slot whose read fails: nil all the same, and the slot is left to do. */
  lemma NilWithAFailure(slot: Slot)
    ensures exists w :: Reached(1, w) && w.proc == Ended(Finished(0, 1, 1)) && w.db.slots == map[slot := false]
  {
    var w := OneReadFails(slot);
    w := Next(1, w, EndDispatch);
    w := Next(1, w, Leave(0));
    w := Next(1, w, CloseResults);
    w := Next(1, w, Finish);
    assert w.db.slots == map[slot := false];
  }
}
