/**
 A file as a crash sees it.  `live` is what a reader sees now.  `versions` holds every content the
 current inode has had since its last fsync, and `gone` the version sets of removed inodes whose
 unlink may not have reached the disk.  `mayVanish` says the directory entry itself is not durable.
 */
module Disk {
  import opened Prelude

  datatype File = File(live: Option<Bytes>, versions: set<Bytes>, mayVanish: bool, gone: set<set<Bytes>>)

  ghost predicate WellFormed(f: File) {
    if f.live.Some? then f.live.value in f.versions else f.versions == {}
  }

  /** A file whose content is wholly durable, as after a reboot. */
  function Settled(content: Option<Bytes>): File {
    match content
    case None => File(None, {}, true, {})
    case Some(b) => File(content, {b}, false, {})
  }

  /** open(O_CREATE) */
  function Create(f: File): File {
    if f.live.Some? then f else File(Some([]), {[]}, true, f.gone)
  }

  /** Any write or truncate: the new content joins the ones a crash may leave. */
  function Put(f: File, content: Bytes): File {
    File(Some(content), f.versions + {content}, f.mayVanish, f.gone)
  }

  /** A successful fsync, of content and name: only the live content is left for a crash to find. */
  function Sync(f: File): File {
    if f.live.Some? then File(f.live, {f.live.value}, false, {}) else f
  }

  function Remove(f: File): File {
    if f.live.Some? then File(None, {}, true, f.gone + {f.versions}) else f
  }

  /** WriteAt: `bytes` land at `off`, a gap past the old end reads as zero. */
  function Splice(was: Bytes, off: nat, bytes: Bytes): (r: Bytes)
    ensures |r| == if bytes == [] then |was| else Max(|was|, off + |bytes|)
    ensures forall p | 0 <= p < |r| ::
              r[p] == if off <= p < off + |bytes| then bytes[p - off] else if p < |was| then was[p] else 0
  {
    var size := if bytes == [] then |was| else Max(|was|, off + |bytes|);
    seq(size, p requires 0 <= p < size =>
      if off <= p < off + |bytes| then bytes[p - off] else if p < |was| then was[p] else 0)
  }

  /** Truncate: cut, or extend with zeros. */
  function Resize(was: Bytes, size: nat): (r: Bytes)
    ensures |r| == size && forall p | 0 <= p < size :: r[p] == if p < |was| then was[p] else 0
  {
    seq(size, p requires 0 <= p < size => if p < |was| then was[p] else 0)
  }

  /**
   What a crash can make of one inode: a length between two lengths it has had, and every byte either
   one it has had there or the zero of a hole.  This covers losing any subset of unsynced writes, a torn
   write's old, new or mixed bytes, and every shorter prefix of a rewritten file.
   */
  ghost predicate Torn(c: Bytes, versions: set<Bytes>) {
    && (exists v :: v in versions && |v| <= |c|)
    && (exists v :: v in versions && |c| <= |v|)
    && forall p | 0 <= p < |c| :: TornByte(c, versions, p)
  }

  ghost predicate TornByte(c: Bytes, versions: set<Bytes>, p: nat)
    requires p < |c|
  {
    || (exists v :: v in versions && p < |v| && v[p] == c[p])
    || (c[p] == 0 && exists v :: v in versions && |v| <= p)
  }

  /** Content a crash may leave behind under the file's name. */
  ghost predicate Survives(f: File, content: Option<Bytes>) {
    match content
    case None => f.live.None? || f.mayVanish
    case Some(c) => Torn(c, f.versions) || exists g :: g in f.gone && Torn(c, g)
  }

  /** Losing nothing is one of the outcomes. */
  lemma LiveSurvives(f: File)
    requires WellFormed(f)
    ensures Survives(f, f.live)
  {
    if f.live.Some? {
      var c := f.live.value;
      forall p | 0 <= p < |c| ensures TornByte(c, f.versions, p) {}
    }
  }

  /** A write that was not synced may be lost, and so may a file that was not. */
  lemma UnsyncedMayBeLost(f: File, content: Bytes)
    requires WellFormed(f)
    ensures f.live.Some? ==> Survives(Put(f, content), f.live)
    ensures f.live.None? ==> Survives(Put(Create(f), content), None)
  {
    if f.live.Some? {
      var c, versions := f.live.value, Put(f, content).versions;
      forall p | 0 <= p < |c| ensures TornByte(c, versions, p) { assert c in versions && c[p] == c[p]; }
    }
  }

  /** A file that is truncated and rewritten may be left with any part of the new content, from its start. */
  lemma RewriteMayBeCut(f: File, content: Bytes, k: nat)
    requires k <= |content|
    ensures Survives(Put(Put(f, []), content), Some(content[..k]))
  {
    var c, versions := content[..k], Put(Put(f, []), content).versions;
    assert [] in versions && content in versions;
    forall p | 0 <= p < |c| ensures TornByte(c, versions, p) { assert content[p] == c[p]; }
  }

  /** A file that was removed may be back, with what it held. */
  lemma RemovedMayComeBack(f: File)
    requires WellFormed(f) && f.live.Some?
    ensures Survives(Remove(f), f.live) && Survives(Remove(f), None)
  {
    LiveSurvives(f);
    assert f.versions in Remove(f).gone;
  }

  /** What was synced stays. */
  lemma SyncedStays(f: File, content: Option<Bytes>)
    requires f.live.Some? && Survives(Sync(f), content)
    ensures content == f.live
  {
    var v := f.live.value;
    var c := content.value;
    assert Torn(c, {v}) && |c| == |v|;
    forall p | 0 <= p < |c| ensures c[p] == v[p] { assert TornByte(c, {v}, p); }
    assert c == v;
  }
}
