/**
 The program deletes the data files it is done with, between calls.  What a sidecar says is true over such a
 history exactly when none that claims a chunk is left, or can come back, where a data file is deleted.
 */
module DownloadDiscard {
  import opened Prelude
  import opened Disk
  import opened Parts
  import opened Download
  import opened DownloadSafety
  import opened DownloadProtocol
  import opened DownloadOutcome

  /** A step of the machine, or the deletion of the data file while no call is under way. */
  datatype Act = Do(st: Step) | Discard

  ghost predicate CanAct(c: Config, w: World, a: Act) {
    match a
    case Do(st) => Enabled(c, w, st)
    case Discard => !w.proc.Running?
  }

  function Acted(c: Config, w: World, a: Act): World {
    match a
    case Do(st) => Apply(c, w, st)
    case Discard => World(Remove(w.data), w.side, NotRunning)
  }

  ghost predicate Lives(c: Config, w: World, acts: seq<Act>, w': World)
    decreases |acts|
  {
    if acts == [] then w == w'
    else CanAct(c, w, acts[0]) && Lives(c, Acted(c, w, acts[0]), acts[1..], w')
  }

  predicate CrashIn(acts: seq<Act>) { exists i :: 0 <= i < |acts| && acts[i].Do? && acts[i].st.Crash? }

  // ---- What is asked of a deletion, and of a state ----

  predicate AllPending(state: Bytes) { forall j | 0 <= j < |state| :: state[j] == 0 }

  /** The sidecar that is there claims no chunk. */
  predicate NoneClaims(c: Config, side: File) {
    side.live.Some? && |side.live.value| == N(c) ==> AllPending(side.live.value)
  }

  /** Nor does any that a crash could leave. */
  ghost predicate NoneCanClaim(c: Config, side: File) {
    forall p | Survives(side, Some(p)) && |p| == N(c) :: AllPending(p)
  }

  ghost predicate SideTrue(c: Config, w: World) {
    w.side.live.Some? && |w.side.live.value| == N(c) ==>
      forall j | 0 <= j < N(c) && w.side.live.value[j] != 0 :: Landed(c, w.data, j)
  }

  ghost predicate CrashSafe(c: Config, w: World) {
    forall d, p, j: nat | Survives(w.data, d) && Survives(w.side, Some(p)) && |p| == N(c) && j < |p| && p[j] != 0 ::
      d.Some? && GoodChunk(c, d.value, j)
  }

  /** What a sidecar claims is in the file; if a crash is still to come, whatever that leaves. */
  ghost predicate Sure(c: Config, w: World, crash: bool) { if crash then CrashSafe(c, w) else SideTrue(c, w) }

  ghost predicate Harmless(c: Config, side: File, crash: bool) {
    if crash then NoneCanClaim(c, side) else NoneClaims(c, side)
  }

  /** A deletion keeps it exactly when no sidecar claims a chunk, nor can after a crash still to come. */
  lemma DiscardIff(c: Config, w: World, crash: bool)
    ensures Sure(c, Acted(c, w, Discard), crash) <==> Harmless(c, w.side, crash)
  {
    var data := Remove(w.data);
    assert Survives(data, None);
    if crash && CrashSafe(c, Acted(c, w, Discard)) {
      forall p, j: nat | Survives(w.side, Some(p)) && |p| == N(c) && j < |p| ensures p[j] == 0 {
        assert CrashSafe(c, World(data, w.side, NotRunning)) && p[j] != 0 ==> false;
      }
    }
  }

  // ---- What the machine keeps over a deletion ----

  /** Two versions of one inode can mix: the bytes of one with a byte of the other. */
  lemma MixedTorn(versions: set<Bytes>, v: Bytes, u: Bytes, j: nat)
    requires v in versions && u in versions && j < |u| && j < |v|
    ensures Torn(v[j := u[j]], versions)
  {
    var p := v[j := u[j]];
    forall k: nat | k < |p| ensures TornByte(p, versions, k) {
      if k == j { assert u[k] == p[k]; } else { assert v[k] == p[k]; }
    }
  }

  /** So an inode that cannot claim is all pending, or no crash makes it the right length. */
  lemma UnclaimingInode(c: Config, data: File, data': File, versions: set<Bytes>)
    requires SafeInode(c, data, versions)
    requires forall p | Torn(p, versions) && |p| == N(c) :: AllPending(p)
    ensures SafeInode(c, data', versions)
  {
    if Ours(c, data, versions) {
      if v :| v in versions && |v| == N(c) {
        forall u, j: nat | u in versions && j < |u| ensures u[j] == 0 {
          MixedTorn(versions, v, u, j);
          assert AllPending(v[j := u[j]]) && v[j := u[j]][j] == u[j];
        }
        assert forall u | u in versions :: ClaimsDurable(c, data', u);
      }
    }
  }

  lemma DiscardSafe(c: Config, w: World)
    requires Safe(c, w) && NoneCanClaim(c, w.side)
    ensures Safe(c, Acted(c, w, Discard))
  {
    var data := Remove(w.data);
    UnclaimingInode(c, w.data, data, w.side.versions);
    forall g | g in w.side.gone ensures SafeInode(c, data, g) {
      forall p | Torn(p, g) && |p| == N(c) ensures AllPending(p) { assert Survives(w.side, Some(p)); }
      UnclaimingInode(c, w.data, data, g);
    }
  }

  /** The same files to a reader, in the same call. */
  predicate SameLive(w: World, v: World) {
    w.data.live == v.data.live && w.side.live == v.side.live && w.proc == v.proc
  }

  lemma SameLiveOpen(c: Config, w: World, v: World, fault: OpenFault, statOk: bool)
    requires SameLive(w, v)
    ensures SameLive(ApplyOpen(c, w, fault, statOk), ApplyOpen(c, v, fault, statOk))
  {}

  lemma SameLiveSession(c: Config, w: World, v: World, s: Session, st: Step)
    requires SameLive(w, v)
    ensures DataAfter(c, w.data, s, st).live == DataAfter(c, v.data, s, st).live
    ensures SideAfter(w.side, s, st).live == SideAfter(v.side, s, st).live
  {}

  /** Only a crash can tell what is on disk from what a reader sees. */
  lemma SameLiveStep(c: Config, w: World, v: World, st: Step)
    requires SameLive(w, v) && Enabled(c, w, st) && !st.Crash?
    ensures Enabled(c, v, st) && SameLive(Apply(c, w, st), Apply(c, v, st))
  {
    if st.Open? { SameLiveOpen(c, w, v, st.fault, st.statOk); }
    else if !st.Close? && !st.Kill? { SameLiveSession(c, w, v, w.proc.s, st); }
  }

  /**
   `w` is as good as `v`, a state that the machine could be in with no deletion in its past; the very same if
   a crash is still to come.
   */
  ghost predicate AsGoodAs(c: Config, w: World, v: World, crash: bool) {
    All(c, v) && SameLive(w, v) && (crash ==> v == w)
  }

  lemma AllIsSure(c: Config, w: World, v: World, crash: bool)
    requires AsGoodAs(c, w, v, crash)
    ensures Sure(c, w, crash)
  {
    forall d, p, j: nat | Survives(v.data, d) && Survives(v.side, Some(p)) && |p| == N(c) && j < |p| && p[j] != 0
      ensures d.Some? && GoodChunk(c, d.value, j)
    {
      SurvivorClaims(c, v.data, v.side, p, j);
      DurableSurvives(c, v.data, d, j);
    }
    LiveSurvives(v.data);
    LiveSurvives(v.side);
  }

  lemma FreshAll(c: Config, w: World)
    requires Fresh(c, w)
    ensures All(c, w)
  {
    FreshSafe(c, w);
  }

  /** What a harmless deletion leaves is a fresh start, as a reader sees it. */
  lemma DiscardGood(c: Config, w: World, v: World, crash: bool) returns (v': World)
    requires AsGoodAs(c, w, v, crash) && !w.proc.Running? && Harmless(c, w.side, crash)
    ensures AsGoodAs(c, Acted(c, w, Discard), v', crash)
  {
    if crash {
      DiscardSafe(c, w);
      v' := Acted(c, w, Discard);
    } else {
      v' := World(Settled(None), Settled(w.side.live), NotRunning);
      FreshAll(c, v');
    }
  }

  lemma StepAll(c: Config, w: World, st: Step)
    requires All(c, w) && Enabled(c, w, st)
    ensures All(c, Apply(c, w, st))
  {
    StepSafe(c, w, st);
    WorldProtocolStep(c, w, st);
    OutcomeStep(c, w, st);
  }

  lemma DoGood(c: Config, w: World, v: World, st: Step, before: bool, after: bool) returns (v': World)
    requires AsGoodAs(c, w, v, before) && Enabled(c, w, st) && (st.Crash? || after ==> before)
    ensures AsGoodAs(c, Apply(c, w, st), v', after)
  {
    if before { v' := Apply(c, w, st); StepAll(c, w, st); }
    else {
      v' := Apply(c, v, st);
      SameLiveStep(c, w, v, st);
      StepAll(c, v, st);
    }
  }

  // ---- Over a whole history ----

  /** In each state what the sidecar claims is sure; `later` is whether a crash may follow the history. */
  ghost predicate AlwaysSure(c: Config, w: World, acts: seq<Act>, w': World, later: bool)
    requires Lives(c, w, acts, w')
    decreases |acts|
  {
    && Sure(c, w, later || CrashIn(acts))
    && (acts != [] ==> AlwaysSure(c, Acted(c, w, acts[0]), acts[1..], w', later))
  }

  /** Each deletion finds no sidecar that claims a chunk, nor one that could after a crash still to come. */
  ghost predicate Careful(c: Config, w: World, acts: seq<Act>, w': World, later: bool)
    requires Lives(c, w, acts, w')
    decreases |acts|
  {
    acts != [] ==>
      && (acts[0].Discard? ==> Harmless(c, w.side, later || CrashIn(acts[1..])))
      && Careful(c, Acted(c, w, acts[0]), acts[1..], w', later)
  }

  lemma CrashAhead(acts: seq<Act>)
    requires acts != []
    ensures CrashIn(acts) <==> CrashIn(acts[1..]) || (acts[0].Do? && acts[0].st.Crash?)
  {
    var rest := acts[1..];
    if i :| 0 <= i < |rest| && rest[i].Do? && rest[i].st.Crash? { assert acts[i + 1] == rest[i]; }
    if i :| 0 < i < |acts| && acts[i].Do? && acts[i].st.Crash? { assert rest[i - 1] == acts[i]; }
  }

  lemma ActGood(c: Config, w: World, v: World, acts: seq<Act>, later: bool) returns (v': World)
    requires acts != [] && CanAct(c, w, acts[0]) && AsGoodAs(c, w, v, later || CrashIn(acts))
    requires acts[0].Discard? ==> Harmless(c, w.side, later || CrashIn(acts[1..]))
    ensures AsGoodAs(c, Acted(c, w, acts[0]), v', later || CrashIn(acts[1..]))
  {
    CrashAhead(acts);
    match acts[0]
    case Do(st) => v' := DoGood(c, w, v, st, later || CrashIn(acts), later || CrashIn(acts[1..]));
    case Discard => v' := DiscardGood(c, w, v, later || CrashIn(acts));
  }

  lemma {:induction false} LifeFrom(c: Config, w: World, v: World, acts: seq<Act>, w': World, later: bool)
    requires AsGoodAs(c, w, v, later || CrashIn(acts)) && Lives(c, w, acts, w')
    ensures AlwaysSure(c, w, acts, w', later) <==> Careful(c, w, acts, w', later)
    ensures Careful(c, w, acts, w', later) ==> exists v' :: AsGoodAs(c, w', v', later)
    decreases |acts|
  {
    AllIsSure(c, w, v, later || CrashIn(acts));
    if acts == [] {
      assert !CrashIn(acts);
    } else {
      var next, crash := Acted(c, w, acts[0]), later || CrashIn(acts[1..]);
      if acts[0].Discard? { DiscardIff(c, w, crash); }
      if acts[0].Discard? && !Harmless(c, w.side, crash) {
        assert !Sure(c, next, crash);
      } else {
        var v' := ActGood(c, w, v, acts, later);
        LifeFrom(c, next, v', acts[1..], w', later);
      }
    }
  }

  /**
   Over any history of sessions, kills, crashes and deletions: what a sidecar says of the data file is always
   true, and stays so in each crash still to come, exactly when every deletion finds no sidecar that claims a
   chunk, nor one that could after such a crash.
   */
  lemma SureIffCareful(c: Config, w0: World, acts: seq<Act>, w: World, later: bool)
    requires Fresh(c, w0) && Lives(c, w0, acts, w)
    ensures AlwaysSure(c, w0, acts, w, later) <==> Careful(c, w0, acts, w, later)
  {
    FreshAll(c, w0);
    LifeFrom(c, w0, w0, acts, w, later);
  }

  /** Then no session leaves a hole, and a nil return has the object. */
  lemma CarefulDelivers(c: Config, w0: World, acts: seq<Act>, w: World, later: bool)
    requires Fresh(c, w0) && Lives(c, w0, acts, w) && Careful(c, w0, acts, w, later)
    ensures w.proc.Running? ==>
              |w.proc.s.state| == N(c) && forall j: nat | j < N(c) && w.proc.s.state[j] != 0 :: Landed(c, w.data, j)
    ensures w.proc.Returned? && w.proc.r == Done ==> HasTheSource(c, w.data, w.proc.openSize)
    ensures w.proc.Returned? && w.proc.r == Done && later ==> SourceSurvives(c, w.data)
    ensures Sure(c, w, later)
  {
    FreshAll(c, w0);
    LifeFrom(c, w0, w0, acts, w, later);
    var v :| AsGoodAs(c, w, v, later);
    AllIsSure(c, w, v, later);
    if w.proc.Returned? && w.proc.r == Done { DeliveredIsSource(c, v); }
  }

  // ---- A history that is not careful ----

  function Steps(steps: seq<Step>): seq<Act> { seq(|steps|, i requires 0 <= i < |steps| => Do(steps[i])) }

  lemma {:induction false} Sessions(c: Config, w: World, steps: seq<Step>, w': World, rest: seq<Act>, end: World)
    requires Executes(c, w, steps, w') && Lives(c, w', rest, end)
    ensures Lives(c, w, Steps(steps) + rest, end)
    decreases |steps|
  {
    var acts := Steps(steps) + rest;
    if steps == [] {
      assert acts == rest;
    } else {
      assert acts[0] == Do(steps[0]) && acts[1..] == Steps(steps[1..]) + rest;
      Sessions(c, Apply(c, w, steps[0]), steps[1..], w', rest, end);
    }
  }

  lemma SourceFileIsFresh(c: Config, side: Bytes)
    ensures Fresh(c, Found(Some(c.src), side))
  {
    forall j: nat | j < N(c) ensures Landed(c, Settled(Some(c.src)), j) { ChunkInRange(c, j); }
  }

  /** Removed by Close, and back after a crash. */
  lemma UnlinkComesBack(c: Config, side: Bytes, w: World)
    requires Believed(c, Some(c.src), side, w)
    ensures Lives(c, w, [Discard] + ([Do(Crash(None, Some(side)))] + []), Found(None, side))
  {
    var gone := Acted(c, w, Discard);
    LiveSurvives(Settled(Some(side)));
    assert Survives(gone.side, Some(side)) by { assert {side} in gone.side.gone && Torn(side, {side}); }
    assert Lives(c, gone, [Do(Crash(None, Some(side)))] + [], Found(None, side));
    assert ([Discard] + ([Do(Crash(None, Some(side)))] + []))[1..] == [Do(Crash(None, Some(side)))] + [];
  }

  /**
   A nil return, the file deleted as one that is done with, and a crash that undoes the unlinking of the
   sidecar: the next call returns nil over zeros.
   */
  lemma DeletedFileIsBelieved(c: Config, side: Bytes)
    requires |side| == N(c) && AllDone(side)
    ensures exists acts, w ::
              Fresh(c, Found(Some(c.src), side)) && Lives(c, Found(Some(c.src), side), acts, w)
              && Believed(c, None, side, w)
  {
    SourceFileIsFresh(c, side);
    FullSidecarIsBelieved(c, Some(c.src), side);
    FullSidecarIsBelieved(c, None, side);
    var w1 :| Executes(c, Found(Some(c.src), side), BELIEVING, w1) && Believed(c, Some(c.src), side, w1);
    var w2 :| Executes(c, Found(None, side), BELIEVING, w2) && Believed(c, None, side, w2);
    UnlinkComesBack(c, side, w1);
    Sessions(c, Found(None, side), BELIEVING, w2, [], w2);
    var between, last := [Discard] + ([Do(Crash(None, Some(side)))] + []), Steps(BELIEVING) + [];
    LivesOn(c, w1, between, Found(None, side), last, w2);
    Sessions(c, Found(Some(c.src), side), BELIEVING, w1, between + last, w2);
  }

  lemma {:induction false} LivesOn(c: Config, w: World, a: seq<Act>, w1: World, b: seq<Act>, w': World)
    requires Lives(c, w, a, w1) && Lives(c, w1, b, w')
    ensures Lives(c, w, a + b, w')
    decreases |a|
  {
    if a == [] {
      assert a + b == b;
    } else {
      assert (a + b)[1..] == a[1..] + b;
      LivesOn(c, Acted(c, w, a[0]), a[1..], w1, b, w');
    }
  }
}
