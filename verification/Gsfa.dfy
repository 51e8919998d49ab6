/**
 backfill/gsfa.go: unpacking the address index behind a done marker, and deleting it again, by a process
 that can be killed between any two file operations and run again any number of times.
 */
module Gsfa {
  import opened Prelude
  import opened Paths

  // ---- The archive and the directory ----

  /** A tar entry; its path is what Paths.EntryPath makes of its name. */
  datatype Entry = Directory(path: Path) | Regular(path: Path, data: Bytes)

  const MARKER: Path := [".extracted"]
  const SUFFIX: string := ".indexdir"

  predicate EndsWith(s: string, suffix: string) { |suffix| <= |s| && s[|s| - |suffix|..] == suffix }

  /** What the first `n` entries leave: for each path the last of them that writes it. */
  function Contents(archive: seq<Entry>, n: nat): map<Path, Bytes>
    requires n <= |archive|
  {
    if n == 0 then map[]
    else
      var m := Contents(archive, n - 1);
      match archive[n - 1]
      case Directory(_) => m
      case Regular(path, data) => m[path := data]
  }

  datatype Tree = Tree(files: map<Path, Bytes>, dirs: set<Path>)

  predicate Holds(files: map<Path, Bytes>, path: Path, data: Bytes) { path in files && files[path] == data }

  /** Every file of the archive is there, whole; one of the marker's own name is the marker's to overwrite. */
  ghost predicate Full(archive: seq<Entry>, files: map<Path, Bytes>) {
    var m := Contents(archive, |archive|);
    forall p | p in m && p != MARKER :: Holds(files, p, m[p])
  }

  predicate HasIndexDir(t: Tree) { exists d :: d in t.dirs && |d| == 1 && EndsWith(d[0], SUFFIX) }

  // ---- The machine ----

  /** Ready is ensureExtracted's success; Cleaning is os.RemoveAll under way. */
  datatype Proc = Down | Downloading | Unpacking(i: nat) | Finding | Ready | Cleaning

  datatype World = World(tree: Tree, proc: Proc)

  /**
   `ok` of Start and Find is whether Stat and ReadDir succeed.  Put leaves the first `k` bytes of the
   current entry; Fail is any error return.
   */
  datatype Step =
    | Start(ok: bool) | Downloaded | Put(k: nat) | Next | Mark | Find(ok: bool) | Fail
    | StartCleanup | Remove(path: Path) | RemoveDir(path: Path) | Kill

  predicate Found(t: Tree, ok: bool) { ok && MARKER in t.files && HasIndexDir(t) }

  function Prefixes(p: Path, n: nat): set<Path>
    requires n <= |p|
  {
    set k | 1 <= k <= n :: p[..k]
  }

  predicate Enabled(archive: seq<Entry>, w: World, st: Step) {
    match st
    case Start(_) => w.proc.Down?
    case Downloaded => w.proc.Downloading?
    case Put(k) =>
      && w.proc.Unpacking? && w.proc.i < |archive| && archive[w.proc.i].Regular? && k <= |archive[w.proc.i].data|
    case Next =>
      && w.proc.Unpacking? && w.proc.i < |archive|
      && (archive[w.proc.i].Regular? ==> Holds(w.tree.files, archive[w.proc.i].path, archive[w.proc.i].data))
    case Mark => w.proc.Unpacking? && w.proc.i >= |archive|
    case Find(_) => w.proc.Finding?
    case StartCleanup => w.proc.Ready?
    case Remove(path) => w.proc.Cleaning? && path in w.tree.files
    case RemoveDir(path) => w.proc.Cleaning? && forall p | p in w.tree.files :: !(path <= p)
    case Fail => !w.proc.Down?
    case Kill => true
  }

  function Apply(archive: seq<Entry>, w: World, st: Step): World
    requires Enabled(archive, w, st)
  {
    var t := w.tree;
    match st
    case Start(ok) => w.(proc := if Found(t, ok) then Ready else Downloading)
    case Downloaded => w.(proc := Unpacking(0))
    case Put(k) =>
      var e := archive[w.proc.i];
      var parents := if e.path == [] then {} else Prefixes(e.path, |e.path| - 1);
      World(Tree(t.files[e.path := e.data[..k]], t.dirs + parents), w.proc)
    case Next =>
      var e := archive[w.proc.i];
      World(if e.Directory? then t.(dirs := t.dirs + Prefixes(e.path, |e.path|)) else t, Unpacking(w.proc.i + 1))
    case Mark => World(t.(files := t.files[MARKER := []]), Finding)
    case Find(ok) => w.(proc := if Found(t, ok) then Ready else Down)
    case StartCleanup => w.(proc := Cleaning)
    case Remove(path) => w.(tree := t.(files := t.files - {path}))
    case RemoveDir(path) => w.(tree := t.(dirs := t.dirs - {path}))
    case Fail => w.(proc := Down)
    case Kill => w.(proc := Down)
  }

  ghost predicate Executes(archive: seq<Entry>, w: World, steps: seq<Step>, w': World)
    decreases |steps|
  {
    if steps == [] then w == w'
    else Enabled(archive, w, steps[0]) && Executes(archive, Apply(archive, w, steps[0]), steps[1..], w')
  }

  const BLANK: World := World(Tree(map[], {}), Down)

  predicate Blank(w: World) { w == BLANK }

  // ---- What the marker is for ----

  /** The marker's presence means a full extraction. */
  ghost predicate Honest(archive: seq<Entry>, w: World) {
    MARKER in w.tree.files ==> Full(archive, w.tree.files)
  }

  /** The archive brings no file of the marker's own name. */
  predicate NoMarkerEntry(archive: seq<Entry>) {
    forall e | e in archive && e.Regular? :: e.path != MARKER
  }

  /** While unpacking, the entries so far are in place, but for the path being written. */
  ghost predicate Unpacked(archive: seq<Entry>, w: World) {
    w.proc.Unpacking? ==>
      && w.proc.i <= |archive|
      && var m := Contents(archive, w.proc.i);
         forall p | p in m && !(w.proc.i < |archive| && archive[w.proc.i].Regular? && archive[w.proc.i].path == p) ::
           Holds(w.tree.files, p, m[p])
  }

  ghost predicate ReadyMarked(w: World) { w.proc.Ready? ==> MARKER in w.tree.files && HasIndexDir(w.tree) }

  ghost predicate Inv(archive: seq<Entry>, w: World) { Unpacked(archive, w) && ReadyMarked(w) }

  /**
   The steps that make the marker lie: with the marker there, unpacking again over it a part that is not
   what the archive ends with, or cleaning up a file of the archive before the marker.
   */
  ghost predicate Hazard(archive: seq<Entry>, w: World, st: Step)
    requires Enabled(archive, w, st)
  {
    var m := Contents(archive, |archive|);
    MARKER in w.tree.files &&
    match st
    case Put(k) => !Holds(m, archive[w.proc.i].path, archive[w.proc.i].data[..k])
    case Remove(path) => path != MARKER && path in m
    case _ => false
  }

  lemma {:induction false} ContentsFromFiles(archive: seq<Entry>, n: nat, p: Path)
    requires n <= |archive|
    ensures p in Contents(archive, n) <==> exists j :: 0 <= j < n && archive[j].Regular? && archive[j].path == p
  {
    if n > 0 { ContentsFromFiles(archive, n - 1, p); }
  }

  lemma MarkerNotInArchive(archive: seq<Entry>)
    requires NoMarkerEntry(archive)
    ensures MARKER !in Contents(archive, |archive|)
  {
    ContentsFromFiles(archive, |archive|, MARKER);
    assert forall j | 0 <= j < |archive| :: archive[j] in archive;
  }

  lemma InvStep(archive: seq<Entry>, w: World, st: Step)
    requires Inv(archive, w) && Enabled(archive, w, st)
    ensures Inv(archive, Apply(archive, w, st))
  {
  }

  lemma HonestPut(archive: seq<Entry>, w: World, k: nat)
    requires Honest(archive, w) && NoMarkerEntry(archive) && Enabled(archive, w, Put(k))
    ensures Honest(archive, Apply(archive, w, Put(k))) <==> !Hazard(archive, w, Put(k))
  {
    var e := archive[w.proc.i];
    assert e in archive && e.path != MARKER;
    ContentsFromFiles(archive, |archive|, e.path);
  }

  lemma HonestRemove(archive: seq<Entry>, w: World, path: Path)
    requires Honest(archive, w) && NoMarkerEntry(archive) && Enabled(archive, w, Remove(path))
    ensures Honest(archive, Apply(archive, w, Remove(path))) <==> !Hazard(archive, w, Remove(path))
  {
    MarkerNotInArchive(archive);
  }

  /** The marker is written over a full directory. */
  lemma MarkIsHonest(archive: seq<Entry>, w: World)
    requires Inv(archive, w) && Enabled(archive, w, Mark)
    ensures Full(archive, Apply(archive, w, Mark).tree.files)
  {}

  /** One step from an honest marker leaves it honest exactly when it is not a hazard. */
  lemma HonestStep(archive: seq<Entry>, w: World, st: Step)
    requires Honest(archive, w) && Inv(archive, w) && NoMarkerEntry(archive) && Enabled(archive, w, st)
    ensures Honest(archive, Apply(archive, w, st)) <==> !Hazard(archive, w, st)
  {
    match st
    case Put(k) => HonestPut(archive, w, k);
    case Remove(path) => HonestRemove(archive, w, path);
    case Mark => MarkIsHonest(archive, w);
    case _ =>
  }

  ghost predicate AlwaysHonest(archive: seq<Entry>, w: World, steps: seq<Step>, w': World)
    requires Executes(archive, w, steps, w')
    decreases |steps|
  {
    Honest(archive, w) && (steps != [] ==> AlwaysHonest(archive, Apply(archive, w, steps[0]), steps[1..], w'))
  }

  ghost predicate NoHazard(archive: seq<Entry>, w: World, steps: seq<Step>, w': World)
    requires Executes(archive, w, steps, w')
    decreases |steps|
  {
    steps != [] ==> !Hazard(archive, w, steps[0]) && NoHazard(archive, Apply(archive, w, steps[0]), steps[1..], w')
  }

  lemma {:induction false} HonestRunFrom(archive: seq<Entry>, w: World, steps: seq<Step>, w': World)
    requires Honest(archive, w) && Inv(archive, w) && NoMarkerEntry(archive) && Executes(archive, w, steps, w')
    ensures AlwaysHonest(archive, w, steps, w') <==> NoHazard(archive, w, steps, w')
    ensures NoHazard(archive, w, steps, w') ==> Honest(archive, w')
    decreases |steps|
  {
    if steps != [] {
      HonestStep(archive, w, steps[0]);
      InvStep(archive, w, steps[0]);
      var next := Apply(archive, w, steps[0]);
      if Honest(archive, next) { HonestRunFrom(archive, next, steps[1..], w'); }
    }
  }

  lemma {:induction false} InvRun(archive: seq<Entry>, w: World, steps: seq<Step>, w': World)
    requires Inv(archive, w) && Executes(archive, w, steps, w')
    ensures Inv(archive, w')
    decreases |steps|
  {
    if steps != [] {
      InvStep(archive, w, steps[0]);
      InvRun(archive, Apply(archive, w, steps[0]), steps[1..], w');
    }
  }

  /** Over any number of reruns and kills: the marker is never ahead of the files exactly when no step is a hazard. */
  lemma MarkerHonestIff(archive: seq<Entry>, w0: World, steps: seq<Step>, w: World)
    requires Blank(w0) && NoMarkerEntry(archive) && Executes(archive, w0, steps, w)
    ensures AlwaysHonest(archive, w0, steps, w) <==> NoHazard(archive, w0, steps, w)
  {
    HonestRunFrom(archive, w0, steps, w);
  }

  // ---- What findIndexDir answers ----

  /** The files are being changed: nobody asks findIndexDir until that stops. */
  predicate Changing(w: World) { w.proc.Unpacking? || w.proc.Cleaning? }

  /** findIndexDir, were it asked now, would find no directory but a full one. */
  ghost predicate Trusted(archive: seq<Entry>, w: World) {
    Found(w.tree, true) ==> Full(archive, w.tree.files)
  }

  /** Whenever it may be asked. */
  ghost predicate TrustedAtRest(archive: seq<Entry>, w: World) { Changing(w) || Trusted(archive, w) }

  /**
   Unpacking or cleaning up stops, by an error or a kill, while the marker and an index directory are there
   and some file of the archive is not.
   */
  ghost predicate BadStop(archive: seq<Entry>, w: World, st: Step) {
    (st.Kill? || st.Fail?) && Changing(w) && Found(w.tree, true) && !Full(archive, w.tree.files)
  }

  /** One step leaves findIndexDir's answer true exactly when it is not such a stop. */
  lemma TrustedStep(archive: seq<Entry>, w: World, st: Step)
    requires TrustedAtRest(archive, w) && Inv(archive, w) && Enabled(archive, w, st)
    ensures TrustedAtRest(archive, Apply(archive, w, st)) <==> !BadStop(archive, w, st)
  {
    if st.Mark? { MarkIsHonest(archive, w); }
  }

  ghost predicate AlwaysTrusted(archive: seq<Entry>, w: World, steps: seq<Step>, w': World)
    requires Executes(archive, w, steps, w')
    decreases |steps|
  {
    && TrustedAtRest(archive, w)
    && (steps != [] ==> AlwaysTrusted(archive, Apply(archive, w, steps[0]), steps[1..], w'))
  }

  ghost predicate NoBadStop(archive: seq<Entry>, w: World, steps: seq<Step>, w': World)
    requires Executes(archive, w, steps, w')
    decreases |steps|
  {
    steps != [] ==>
      !BadStop(archive, w, steps[0]) && NoBadStop(archive, Apply(archive, w, steps[0]), steps[1..], w')
  }

  lemma {:induction false} TrustedRunFrom(archive: seq<Entry>, w: World, steps: seq<Step>, w': World)
    requires TrustedAtRest(archive, w) && Inv(archive, w) && Executes(archive, w, steps, w')
    ensures AlwaysTrusted(archive, w, steps, w') <==> NoBadStop(archive, w, steps, w')
    ensures NoBadStop(archive, w, steps, w') ==> TrustedAtRest(archive, w')
    decreases |steps|
  {
    if steps != [] {
      TrustedStep(archive, w, steps[0]);
      InvStep(archive, w, steps[0]);
      var next := Apply(archive, w, steps[0]);
      if TrustedAtRest(archive, next) { TrustedRunFrom(archive, next, steps[1..], w'); }
    }
  }

  /** Over any reruns, cleanups and kills: findIndexDir is right whenever it is asked exactly when no stop is bad. */
  lemma TrustedIff(archive: seq<Entry>, w0: World, steps: seq<Step>, w: World)
    requires Blank(w0) && Executes(archive, w0, steps, w)
    ensures AlwaysTrusted(archive, w0, steps, w) <==> NoBadStop(archive, w0, steps, w)
  {
    TrustedRunFrom(archive, w0, steps, w);
  }

  /** Then ensureExtracted never answers with a partly unpacked directory. */
  lemma ReadyIsComplete(archive: seq<Entry>, w0: World, steps: seq<Step>, w: World)
    requires Blank(w0) && Executes(archive, w0, steps, w)
    requires NoBadStop(archive, w0, steps, w) && w.proc.Ready?
    ensures Full(archive, w.tree.files) && HasIndexDir(w.tree)
  {
    TrustedRunFrom(archive, w0, steps, w);
    InvRun(archive, w0, steps, w);
  }

  // ---- A full unpacking is found ----

  /** Every file is in directories that are there. */
  ghost predicate Housed(t: Tree) { forall p | p in t.files && p != [] :: Prefixes(p, |p| - 1) <= t.dirs }

  /** An entry's directory is there, or its file. */
  ghost predicate Placed(e: Entry, t: Tree) {
    if e.Directory? then Prefixes(e.path, |e.path|) <= t.dirs else e.path in t.files
  }

  /** The entries so far are, and all of them once the marker is written. */
  ghost predicate AllPlaced(archive: seq<Entry>, w: World) {
    && Housed(w.tree) && (w.proc.Finding? ==> MARKER in w.tree.files)
    && (w.proc.Unpacking? || w.proc.Finding? ==>
          forall j | 0 <= j < |archive| && (w.proc.Unpacking? ==> j < w.proc.i) :: Placed(archive[j], w.tree))
  }

  lemma PlacedStep(archive: seq<Entry>, w: World, st: Step)
    requires AllPlaced(archive, w) && Enabled(archive, w, st)
    ensures AllPlaced(archive, Apply(archive, w, st))
  {
    var w' := Apply(archive, w, st);
    if st.RemoveDir? {
      forall p | p in w'.tree.files && p != [] ensures Prefixes(p, |p| - 1) <= w'.tree.dirs {
        assert !(st.path <= p);
      }
    }
  }

  lemma {:induction false} PlacedRun(archive: seq<Entry>, w: World, steps: seq<Step>, w': World)
    requires AllPlaced(archive, w) && Executes(archive, w, steps, w')
    ensures AllPlaced(archive, w')
    decreases |steps|
  {
    if steps != [] {
      PlacedStep(archive, w, steps[0]);
      PlacedRun(archive, Apply(archive, w, steps[0]), steps[1..], w');
    }
  }

  /** The index directory itself, or something in it. */
  predicate InIndexDir(e: Entry) {
    e.path != [] && EndsWith(e.path[0], SUFFIX) && (e.Directory? || |e.path| > 1)
  }

  /** An archive with an index directory in it is found once it is unpacked, and ensureExtracted succeeds. */
  lemma UnpackedIsFound(archive: seq<Entry>, w0: World, steps: seq<Step>, w: World, e: Entry)
    requires Blank(w0) && Executes(archive, w0, steps, w) && w.proc.Finding? && e in archive && InIndexDir(e)
    ensures Enabled(archive, w, Find(true)) && Apply(archive, w, Find(true)).proc == Ready
  {
    PlacedRun(archive, w0, steps, w);
    var j :| 0 <= j < |archive| && archive[j] == e;
    assert Placed(archive[j], w.tree);
    var n := if e.Directory? then |e.path| else |e.path| - 1;
    assert e.path[..1] in Prefixes(e.path, n) && Prefixes(e.path, n) <= w.tree.dirs;
    assert e.path[..1] in w.tree.dirs && |e.path[..1]| == 1 && EndsWith(e.path[..1][0], SUFFIX);
  }

  // ---- Each bad stop is answered ----

  ghost predicate Leads(archive: seq<Entry>, w: World, w': World) {
    exists steps :: Executes(archive, w, steps, w')
  }

  lemma {:induction false} Extended(archive: seq<Entry>, w0: World, steps: seq<Step>, w: World, st: Step)
    requires Executes(archive, w0, steps, w) && Enabled(archive, w, st)
    ensures Executes(archive, w0, steps + [st], Apply(archive, w, st))
    decreases |steps|
  {
    if steps == [] {
      assert (steps + [st])[1..] == [];
    } else {
      assert (steps + [st])[1..] == steps[1..] + [st];
      Extended(archive, Apply(archive, w0, steps[0]), steps[1..], w, st);
    }
  }

  lemma LeadsOn(archive: seq<Entry>, w0: World, w: World, st: Step)
    requires Leads(archive, w0, w) && Enabled(archive, w, st)
    ensures Leads(archive, w0, Apply(archive, w, st))
  {
    var steps :| Executes(archive, w0, steps, w);
    Extended(archive, w0, steps, w, st);
  }

  /** A success that the marker vouches for, got to from `w0`. */
  ghost predicate HonestSuccess(archive: seq<Entry>, w0: World, w: World) {
    && Leads(archive, w0, w) && w.proc.Ready?
    && Inv(archive, w) && Honest(archive, w) && NoMarkerEntry(archive)
  }

  /** A success over a directory that is not complete. */
  ghost predicate FalseSuccess(archive: seq<Entry>, w0: World, w: World) {
    Leads(archive, w0, w) && w.proc.Ready? && !Full(archive, w.tree.files)
  }

  /** And after a bad stop the very next run does: its Stat and ReadDir find a directory that is not complete. */
  lemma BadStopIsAnswered(archive: seq<Entry>, w0: World, w: World, st: Step)
    requires Leads(archive, w0, w) && Enabled(archive, w, st) && BadStop(archive, w, st)
    ensures FalseSuccess(archive, w0, World(w.tree, Ready))
  {
    LeadsOn(archive, w0, w, st);
    LeadsOn(archive, w0, World(w.tree, Down), Start(true));
  }

  /**
   From any honest success, a cleanup killed after the first file it removes leaves a directory that the
   next run takes for a full one.
   */
  lemma InterruptedCleanup(archive: seq<Entry>, w0: World, w: World, path: Path)
    requires HonestSuccess(archive, w0, w) && path in Contents(archive, |archive|)
    ensures FalseSuccess(archive, w0, w.(tree := w.tree.(files := w.tree.files - {path})))
  {
    MarkerNotInArchive(archive);
    var t := w.tree.(files := w.tree.files - {path});
    LeadsOn(archive, w0, w, StartCleanup);
    LeadsOn(archive, w0, World(w.tree, Cleaning), Remove(path));
    assert BadStop(archive, World(t, Cleaning), Kill);
    BadStopIsAnswered(archive, w0, World(t, Cleaning), Kill);
  }

  /**
   From any honest success, a next run that cannot read the directory unpacks over it, and killed once it
   has truncated the first file leaves a directory that the run after it takes for a full one.
   */
  lemma InterruptedUnpack(archive: seq<Entry>, w0: World, w: World)
    requires HonestSuccess(archive, w0, w)
    requires archive != [] && archive[0].Regular? && !Holds(Contents(archive, |archive|), archive[0].path, [])
    ensures exists w' :: FalseSuccess(archive, w0, w') && w'.tree.files.Keys == w.tree.files.Keys
  {
    LeadsOn(archive, w0, w, Kill);
    LeadsOn(archive, w0, World(w.tree, Down), Start(false));
    LeadsOn(archive, w0, World(w.tree, Downloading), Downloaded);
    LeadsOn(archive, w0, World(w.tree, Unpacking(0)), Put(0));
    var cut := Apply(archive, World(w.tree, Unpacking(0)), Put(0)).tree;
    StillFound(w.tree, cut);
    MarkerNotInArchive(archive);
    TruncatedIsNotFull(archive, w.tree.files);
    BadStopIsAnswered(archive, w0, World(cut, Unpacking(0)), Kill);
    assert FalseSuccess(archive, w0, World(cut, Ready)) && cut.files.Keys == w.tree.files.Keys;
  }

  lemma TruncatedIsNotFull(archive: seq<Entry>, files: map<Path, Bytes>)
    requires archive != [] && archive[0].Regular? && !Holds(Contents(archive, |archive|), archive[0].path, [])
    requires Full(archive, files) && MARKER !in Contents(archive, |archive|)
    ensures !Full(archive, files[archive[0].path := []]) && archive[0].path in files
  {
    ContentsFromFiles(archive, |archive|, archive[0].path);
    assert archive[0].path in Contents(archive, |archive|);
  }

  lemma StillFound(t: Tree, t': Tree)
    requires Found(t, true) && t.dirs <= t'.dirs && MARKER in t'.files
    ensures Found(t', true)
  {
    var d :| d in t.dirs && |d| == 1 && EndsWith(d[0], SUFFIX);
    assert d in t'.dirs;
  }

  const INDEX_FILE: Path := ["a.indexdir", "f"]
  const ONE_FILE: seq<Entry> := [Regular(INDEX_FILE, [7])]
  const UNPACKED: Tree := Tree(map[INDEX_FILE := [7]], {["a.indexdir"]})
  const SUCCESS: World := World(UNPACKED.(files := UNPACKED.files[MARKER := []]), Ready)

  /** A first run, from nothing to an honest success. */
  lemma FirstRun()
    ensures HonestSuccess(ONE_FILE, BLANK, SUCCESS)
    ensures Contents(ONE_FILE, |ONE_FILE|) == map[INDEX_FILE := [7]]
  {
    assert Executes(ONE_FILE, BLANK, [], BLANK);
    LeadsOn(ONE_FILE, BLANK, BLANK, Start(true));
    LeadsOn(ONE_FILE, BLANK, World(BLANK.tree, Downloading), Downloaded);
    assert Prefixes(INDEX_FILE, 1) == {["a.indexdir"]} by { assert INDEX_FILE[..1] == ["a.indexdir"]; }
    assert [7][..1] == [7] && map[][INDEX_FILE := [7]] == UNPACKED.files && {} + {["a.indexdir"]} == UNPACKED.dirs;
    LeadsOn(ONE_FILE, BLANK, World(BLANK.tree, Unpacking(0)), Put(1));
    LastSteps();
    assert Contents(ONE_FILE, 0) == map[] && Contents(ONE_FILE, 1) == map[INDEX_FILE := [7]];
  }

  lemma LastSteps()
    requires Leads(ONE_FILE, BLANK, World(UNPACKED, Unpacking(0)))
    ensures Leads(ONE_FILE, BLANK, SUCCESS)
  {
    LeadsOn(ONE_FILE, BLANK, World(UNPACKED, Unpacking(0)), Next);
    LeadsOn(ONE_FILE, BLANK, World(UNPACKED, Unpacking(1)), Mark);
    assert EndsWith("a.indexdir", SUFFIX) && ["a.indexdir"] in UNPACKED.dirs;
    LeadsOn(ONE_FILE, BLANK, SUCCESS.(proc := Finding), Find(true));
  }

  /** So from nothing either way comes to a success over a directory that is not complete. */
  lemma HazardsFromNothing()
    ensures FalseSuccess(ONE_FILE, BLANK, SUCCESS.(tree := SUCCESS.tree.(files := SUCCESS.tree.files - {INDEX_FILE})))
    ensures exists w :: FalseSuccess(ONE_FILE, BLANK, w) && w.tree.files.Keys == SUCCESS.tree.files.Keys
  {
    FirstRun();
    InterruptedCleanup(ONE_FILE, BLANK, SUCCESS, INDEX_FILE);
    InterruptedUnpack(ONE_FILE, BLANK, SUCCESS);
  }

  const CLEANUP: seq<Step> := [StartCleanup, Remove(INDEX_FILE), Remove(MARKER), Kill]

  /** A cleanup that gets as far as the marker is no bad stop, though it takes a file of the archive before it. */
  lemma FinishedCleanup()
    ensures exists w ::
              && Executes(ONE_FILE, SUCCESS, CLEANUP, w) && w == World(Tree(map[], UNPACKED.dirs), Down)
              && NoBadStop(ONE_FILE, SUCCESS, CLEANUP, w)
    ensures Hazard(ONE_FILE, SUCCESS.(proc := Cleaning), Remove(INDEX_FILE))
  {
    FirstRun();
    var cleaning := World(SUCCESS.tree, Cleaning);
    var left := World(Tree(map[MARKER := []], UNPACKED.dirs), Cleaning);
    var empty := World(Tree(map[], UNPACKED.dirs), Cleaning);
    var gone := World(empty.tree, Down);
    assert SUCCESS.tree.files - {INDEX_FILE} == left.tree.files && left.tree.files - {MARKER} == map[];
    GoodFirst(ONE_FILE, empty, Kill, [], gone);
    GoodFirst(ONE_FILE, left, Remove(MARKER), [Kill], gone);
    GoodFirst(ONE_FILE, cleaning, Remove(INDEX_FILE), [Remove(MARKER), Kill], gone);
    GoodFirst(ONE_FILE, SUCCESS, StartCleanup, [Remove(INDEX_FILE), Remove(MARKER), Kill], gone);
    assert CLEANUP == [StartCleanup] + [Remove(INDEX_FILE), Remove(MARKER), Kill];
  }

  lemma GoodFirst(archive: seq<Entry>, w: World, st: Step, rest: seq<Step>, w': World)
    requires Enabled(archive, w, st) && !BadStop(archive, w, st)
    requires Executes(archive, Apply(archive, w, st), rest, w') && NoBadStop(archive, Apply(archive, w, st), rest, w')
    ensures Executes(archive, w, [st] + rest, w') && NoBadStop(archive, w, [st] + rest, w')
  {
    assert ([st] + rest)[1..] == rest;
  }
}
