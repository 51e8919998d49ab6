/** backfill/gsfa.go, safeJoin, over Unix path strings: where a tar entry's name leads. */
module Paths {
  import opened Prelude
  import opened Strings

  const SLASH: char := '/'

  type Path = seq<string>

  // ---- filepath.Clean and filepath.Join ----

  /** The parts that are left once "." and empty parts are dropped and ".." has stepped back where it can. */
  function Clean(rooted: bool, parts: seq<string>): Path {
    if parts == [] then []
    else
      var part, dir := parts[|parts| - 1], Clean(rooted, parts[..|parts| - 1]);
      if part == "" || part == "." then dir
      else if part != ".." then dir + [part]
      else if dir != [] && dir[|dir| - 1] != ".." then dir[..|dir| - 1]
      else if rooted then dir else dir + [".."]
  }

  predicate Rooted(s: string) { s != "" && s[0] == SLASH }

  function Parts(s: string): Path { Clean(Rooted(s), Split(s, SLASH)) }

  function Render(rooted: bool, path: Path): string {
    if rooted then [SLASH] + Join(path, SLASH) else if path == [] then "." else Join(path, SLASH)
  }

  function CleanString(s: string): string { Render(Rooted(s), Parts(s)) }

  /** filepath.Join of two elements, the second not empty. */
  function JoinPath(a: string, b: string): string {
    if a == "" then CleanString(b) else CleanString(a + [SLASH] + b)
  }

  /** The check that a target stays below a directory. */
  function Checked(target: string, dir: string): Option<string> {
    if dir + [SLASH] <= target || target == dir then Some(target) else None
  }

  /** safeJoin; None is its error. */
  function SafeJoin(dst: string, name: string): Option<string> {
    Checked(JoinPath(dst, CleanString([SLASH] + name)), CleanString(dst))
  }

  // ---- What is left of a name ----

  predicate Plain(part: string) { part != "" && part != "." && part != ".." && SLASH !in part }

  /** One part more: an empty one and "." go, a plain one stays, and ".." takes back the plain one before it. */
  lemma CleanOneMore(rooted: bool, parts: seq<string>, part: string)
    requires Plain(part)
    ensures Clean(rooted, parts + [""]) == Clean(rooted, parts) == Clean(rooted, parts + ["."])
    ensures Clean(rooted, parts + [part]) == Clean(rooted, parts) + [part]
    ensures Clean(rooted, parts + [part] + [".."]) == Clean(rooted, parts)
  {
    assert forall p: string :: (parts + [p])[..|parts|] == parts;
    assert (parts + [part] + [".."])[..|parts| + 1] == parts + [part];
  }

  /** With nothing to take back, ".." stays at the root, and else is kept. */
  lemma CleanUp(parts: seq<string>)
    ensures Clean(true, parts) == [] ==> Clean(true, parts + [".."]) == []
    ensures Clean(false, parts) == [] ==> Clean(false, parts + [".."]) == [".."]
    ensures Clean(false, parts) != [] && Clean(false, parts)[|Clean(false, parts)| - 1] == ".." ==>
              Clean(false, parts + [".."]) == Clean(false, parts) + [".."]
  {
    assert (parts + [".."])[..|parts|] == parts;
  }

  /** The parts an entry's name comes to. */
  function EntryPath(name: string): Path { Clean(true, Split(name, SLASH)) }

  lemma {:induction false} RootedIsPlain(parts: seq<string>)
    requires forall p | p in parts :: SLASH !in p
    ensures forall p | p in Clean(true, parts) :: Plain(p)
  {
    if parts != [] {
      RootedIsPlain(parts[..|parts| - 1]);
      var dir := Clean(true, parts[..|parts| - 1]);
      if dir != [] { assert forall p | p in dir[..|dir| - 1] :: p in dir; }
    }
  }

  /** No part of an entry's name steps back or holds a separator. */
  lemma EntryIsPlain(name: string)
    ensures forall p | p in EntryPath(name) :: Plain(p)
  {
    SplitFree(name, SLASH);
    RootedIsPlain(Split(name, SLASH));
  }

  lemma {:induction false} CleanPlain(rooted: bool, a: seq<string>, q: Path)
    requires forall p | p in q :: Plain(p)
    ensures Clean(rooted, a + q) == Clean(rooted, a) + q
  {
    if q == [] {
      assert a + q == a;
    } else {
      var k := |q| - 1;
      assert (a + q)[..|a + q| - 1] == a + q[..k];
      CleanPlain(rooted, a, q[..k]);
      assert Plain(q[k]) && q == q[..k] + [q[k]];
    }
  }

  lemma CleanBlank(rooted: bool, a: seq<string>)
    ensures Clean(rooted, a + [""]) == Clean(rooted, a)
  {
    assert (a + [""])[..|a|] == a;
  }

  lemma {:induction false} BlankFirst(parts: seq<string>)
    ensures Clean(true, [""] + parts) == Clean(true, parts)
  {
    if parts == [] {
      assert ([""] + parts)[..0] == [];
    } else {
      assert ([""] + parts)[..|parts|] == [""] + parts[..|parts| - 1];
      BlankFirst(parts[..|parts| - 1]);
    }
  }

  /** The name cleaned under a root. */
  lemma EntryString(name: string)
    ensures CleanString([SLASH] + name) == [SLASH] + Join(EntryPath(name), SLASH)
  {
    SplitFirst("", name, SLASH);
    assert "" + [SLASH] + name == [SLASH] + name;
    BlankFirst(Split(name, SLASH));
  }

  lemma Regroup(a: seq<string>, b: seq<string>, c: seq<string>)
    ensures a + (b + c) == a + b + c
  {}

  /** What is split when a cleaned name is joined to a destination. */
  lemma JoinedSplit(dst: string, tail: string)
    ensures Split(dst + [SLASH] + ([SLASH] + tail), SLASH) == Split(dst, SLASH) + [""] + Split(tail, SLASH)
  {
    var rooted := [SLASH] + tail;
    SplitConcat(dst, rooted, SLASH);
    assert rooted[1..] == tail;
    Regroup(Split(dst, SLASH), [""], Split(tail, SLASH));
  }

  /** Joining puts the name's parts after the destination's. */
  lemma JoinedParts(dst: string, name: string)
    requires dst != ""
    ensures JoinPath(dst, CleanString([SLASH] + name)) == Render(Rooted(dst), Parts(dst) + EntryPath(name))
  {
    var q, r, dir := EntryPath(name), Rooted(dst), Split(dst, SLASH);
    EntryString(name);
    EntryIsPlain(name);
    SplitJoin(q, SLASH);
    JoinedSplit(dst, Join(q, SLASH));
    CleanBlank(r, dir);
    if q == [] {
      CleanBlank(r, dir + [""]);
      assert Parts(dst) + q == Parts(dst);
    } else {
      CleanPlain(r, dir + [""], q);
    }
  }

  lemma {:induction false} JoinConcat(p: Path, q: Path)
    requires p != [] && q != []
    ensures Join(p + q, SLASH) == Join(p, SLASH) + [SLASH] + Join(q, SLASH)
  {
    if |p| == 1 {
      assert (p + q)[1..] == q;
    } else {
      JoinConcat(p[1..], q);
      assert (p + q)[1..] == p[1..] + q;
    }
  }

  /** A joined path of plain parts starts with neither a slash nor a dot part. */
  predicate PlainStart(tail: string) {
    tail != "" && tail[0] != SLASH && tail != "." && !("./" <= tail)
  }

  lemma JoinStart(q: Path)
    requires q != [] && Plain(q[0])
    ensures PlainStart(Join(q, SLASH))
  {
    var part := q[0];
    assert part[0] in part;
    if |part| == 1 {
      assert part == [part[0]];
    } else {
      assert part[1] in part && Join(q, SLASH)[1] == part[1];
    }
  }

  lemma CheckedBelow(dir: string, tail: string)
    ensures Checked(dir + [SLASH] + tail, dir) == Some(dir + [SLASH] + tail) && Checked(dir, dir) == Some(dir)
  {}

  /** Below the root and the current directory the check refuses what Clean makes of the join. */
  lemma CheckedAtTop(tail: string)
    requires PlainStart(tail)
    ensures Checked([SLASH] + tail, "/") == None && Checked(tail, ".") == None
  {
    assert "/" + [SLASH] == "//" && "." + [SLASH] == "./";
    assert ([SLASH] + tail)[1] == tail[0] != "//"[1];
  }

  lemma CheckedElsewhere(target: string)
    requires Rooted(target)
    ensures Checked(target, ".") == None
  {
    assert "." + [SLASH] == "./";
    assert target[0] != "./"[0];
  }

  lemma RenderConcat(rooted: bool, p: Path, q: Path)
    requires p != [] && q != []
    ensures Render(rooted, p + q) == Render(rooted, p) + [SLASH] + Join(q, SLASH)
  {
    JoinConcat(p, q);
  }

  /**
   Where a name leads: below the destination by the name's own plain parts, or to the destination itself.
   It is refused exactly when the destination is the root or the current directory, and something is left of
   the name; or when the destination is the empty string.
   */
  lemma SafeJoinStaysBelow(dst: string, name: string)
    ensures var q := EntryPath(name);
            SafeJoin(dst, name) ==
            if dst == "" || (Parts(dst) == [] && q != []) then None
            else if q == [] then Some(CleanString(dst))
            else Some(CleanString(dst) + [SLASH] + Join(q, SLASH))
  {
    var q := EntryPath(name);
    if dst == "" {
      EmptyDestination(name);
    } else if q == [] {
      JoinedParts(dst, name);
      assert Parts(dst) + q == Parts(dst);
      CheckedBelow(CleanString(dst), "");
    } else if Parts(dst) == [] {
      TopDestination(dst, name);
    } else {
      JoinedParts(dst, name);
      RenderConcat(Rooted(dst), Parts(dst), q);
      CheckedBelow(CleanString(dst), Join(q, SLASH));
    }
  }

  lemma TopDestination(dst: string, name: string)
    requires dst != "" && Parts(dst) == [] && EntryPath(name) != []
    ensures SafeJoin(dst, name) == None
  {
    var q := EntryPath(name);
    JoinedParts(dst, name);
    assert [] + q == q;
    EntryIsPlain(name);
    JoinStart(q);
    CheckedAtTop(Join(q, SLASH));
    assert [SLASH] + "" == "/";
  }

  lemma EmptyDestination(name: string)
    ensures SafeJoin("", name) == None
  {
    var clean := CleanString([SLASH] + name);
    EntryString(name);
    assert Rooted(CleanString(clean));
    assert CleanString("") == "." by { assert Split("", SLASH) == [""] && [""][..0] == []; }
    CheckedElsewhere(CleanString(clean));
  }
}
