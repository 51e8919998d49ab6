/** backfill/parts.go: the sidecar that records which chunks of a download landed. */
module Parts {
  import opened Prelude
  import opened Disk

  const SYNC_EVERY: nat := 16

  /** How opening a download can fail part-way. */
  datatype OpenFault = NoFault | ReadFails | RemoveFails | CreateFails | TruncateFails

  /** How one flush's system calls go: fsync, open(O_TRUNC), bytes written, write and close status. */
  datatype FlushIo = FlushIo(syncOk: bool, openOk: bool, written: nat, writeOk: bool)

  // ---- What each operation does to the values it touches ----

  function LoadState(existing: Option<Bytes>, n: nat): (state: Bytes)
    ensures |state| == n
  {
    if existing.Some? && |existing.value| == n then existing.value else Zeros(n)
  }

  predicate Stale(existing: Option<Bytes>, n: nat) { existing.Some? && |existing.value| != n }

  predicate OpenFails(existing: Option<Bytes>, n: nat, fault: OpenFault) {
    fault.ReadFails? || (Stale(existing, n) && fault.RemoveFails?)
  }

  function SideAfterOpen(side: File, n: nat, fault: OpenFault): File {
    if !OpenFails(side.live, n, fault) && Stale(side.live, n) then Remove(side) else side
  }

  predicate Marks(state: Bytes, idx: int) { 0 <= idx < |state| && state[idx] != 1 }

  function MarkState(state: Bytes, idx: int): (r: Bytes)
    ensures |r| == |state| && forall j | 0 <= j < |r| && state[j] != 0 :: r[j] != 0
  {
    if Marks(state, idx) then state[idx := 1] else state
  }

  function MarkDirty(state: Bytes, dirty: nat, idx: int): nat {
    if Marks(state, idx) then dirty + 1 else dirty
  }

  /** The sidecar just after os.WriteFile has opened and truncated it. */
  function TruncateSide(side: File): File { Put(Create(side), []) }

  predicate FlushOk(n: nat, io: FlushIo) {
    io.syncOk && io.openOk && io.writeOk && io.written == n
  }

  function FlushData(data: File, io: FlushIo): File { if io.syncOk then Sync(data) else data }

  function FlushSide(side: File, state: Bytes, io: FlushIo): File {
    if !io.syncOk || !io.openOk then side
    else Put(TruncateSide(side), state[..Min(io.written, |state|)])
  }

  predicate AllDone(state: Bytes) { forall i | 0 <= i < |state| :: state[i] != 0 }

  function CloseSide(side: File, state: Bytes, removeOk: bool): File {
    if AllDone(state) && removeOk then Remove(side) else side
  }

  /** The indexes still to fetch, in order. */
  function PendingOf(state: Bytes): (todo: seq<nat>) {
    if state == [] then []
    else
      var k := |state| - 1;
      PendingOf(state[..k]) + if state[k] == 0 then [k] else []
  }

  lemma {:induction false} PendingMembers(state: Bytes)
    ensures forall i :: i in PendingOf(state) <==> 0 <= i < |state| && state[i] == 0
  {
    if state != [] {
      var k := |state| - 1;
      PendingMembers(state[..k]);
    }
  }

  lemma {:induction false} PendingAscending(state: Bytes)
    ensures Ascending(PendingOf(state))
  {
    if state != [] {
      var k := |state| - 1;
      PendingAscending(state[..k]);
      PendingMembers(state[..k]);
      var front := PendingOf(state[..k]);
      assert forall a | 0 <= a < |front| :: front[a] in front;
    }
  }

  /** PendingOf names exactly the zero bytes, ascending: no pending chunk is skipped or named twice. */
  lemma PendingIsExact(state: Bytes)
    ensures forall i :: i in PendingOf(state) <==> 0 <= i < |state| && state[i] == 0
    ensures Ascending(PendingOf(state))
    ensures PendingOf(state) == [] <==> AllDone(state)
  {
    PendingMembers(state);
    PendingAscending(state);
    var todo := PendingOf(state);
    if todo != [] { assert todo[0] in todo; }
  }

  /** What a resume fetches: every chunk that a sidecar of the right length does not record, else every chunk. */
  lemma ResumeFetches(existing: Option<Bytes>, n: nat)
    ensures forall i :: i in PendingOf(LoadState(existing, n)) <==>
                        0 <= i < n && (existing.Some? && |existing.value| == n ==> existing.value[i] == 0)
  {
    PendingMembers(LoadState(existing, n));
  }

  class OsFile {
    var f: File
    constructor (f: File)
      ensures this.f == f
    {
      this.f := f;
    }
  }

  class PartsFile {
    const path: OsFile
    var state: array<Byte>
    var dirty: nat

    constructor (path: OsFile, n: nat)
      ensures this.path == path && fresh(state) && state[..] == Zeros(n) && dirty == 0
    {
      this.path := path;
      this.state := new Byte[n](i => 0);
      this.dirty := 0;
    }

    /** openParts: trust a sidecar only when its length is the number of chunks. */
    static method Open(path: OsFile, n: nat, fault: OpenFault) returns (p: PartsFile?)
      modifies path
      ensures p == null <==> OpenFails(old(path.f.live), n, fault)
      ensures path.f == SideAfterOpen(old(path.f), n, fault)
      ensures p == null <==>
              || fault.ReadFails?
              || (fault.RemoveFails? && old(path.f.live).Some? && |old(path.f.live).value| != n)
      ensures p != null && path.f.live.Some? ==> |path.f.live.value| == n
      ensures old(path.f.live).Some? && |old(path.f.live).value| == n ==> path.f == old(path.f)
      ensures p != null ==>
                && fresh(p) && fresh(p.state) && p.path == path
                && p.state[..] == LoadState(old(path.f.live), n) && p.dirty == 0
    {
      if fault.ReadFails? { return null; }
      var fresh' := new PartsFile(path, n);
      var existing := path.f.live;
      if existing.Some? && |existing.value| == n {
        var bytes := existing.value;
        for i := 0 to n
          modifies fresh'.state
          invariant fresh'.state.Length == n && fresh(fresh'.state)
          invariant fresh'.state[..i] == bytes[..i]
        {
          fresh'.state[i] := bytes[i];
        }
        assert fresh'.state[..] == bytes;
      } else if existing.Some? {
        if fault.RemoveFails? { return null; }
        path.f := Remove(path.f);
      }
      p := fresh';
    }

    method Pending() returns (out: seq<nat>)
      ensures out == PendingOf(state[..])
    {
      out := [];
      for i := 0 to state.Length
        invariant out == PendingOf(state[..i])
      {
        assert state[..i + 1][..i] == state[..i];
        if state[i] == 0 { out := out + [i]; }
      }
      assert state[..state.Length] == state[..];
    }

    method MarkDone(idx: int)
      modifies state, this`dirty
      ensures state[..] == MarkState(old(state[..]), idx)
      ensures dirty == MarkDirty(old(state[..]), old(dirty), idx)
      ensures 0 <= idx < state.Length ==> state[idx] == 1
      ensures forall i | 0 <= i < state.Length && i != idx :: state[i] == old(state[i])
      ensures dirty == old(dirty) + if 0 <= idx < state.Length && old(state[idx]) != 1 then 1 else 0
    {
      if idx < 0 || idx >= state.Length || state[idx] == 1 { return; }
      state[idx] := 1;
      dirty := dirty + 1;
    }

    /** fsync the data, then rewrite the sidecar; `data` may be absent, as in the package's own tests. */
    method FlushLocked(data: OsFile?, io: FlushIo) returns (ok: bool)
      requires data != path
      requires data == null ==> io.syncOk
      modifies data, path, this`dirty
      ensures ok == FlushOk(state.Length, io)
      ensures ok <==> io.syncOk && io.openOk && io.writeOk && io.written == state.Length
      ensures ok ==> path.f.live == Some(state[..])
      ensures !io.syncOk || !io.openOk ==> path.f == old(path.f)
      ensures data != null ==> data.f == if io.syncOk then Sync(old(data.f)) else old(data.f)
      ensures data != null ==> data.f == FlushData(old(data.f), io)
      ensures path.f == FlushSide(old(path.f), state[..], io)
      ensures dirty == if ok then 0 else old(dirty)
    {
      if data != null {
        if !io.syncOk { return false; }
        data.f := Sync(data.f);
      }
      if !io.openOk { return false; }
      path.f := TruncateSide(path.f);
      var k := Min(io.written, state.Length);
      path.f := Put(path.f, state[..k]);
      assert state[..k] == state[..][..k];
      if !io.writeOk || io.written != state.Length { return false; }
      assert state[..state.Length] == state[..];
      dirty := 0;
      return true;
    }

    method MaybeFlush(data: OsFile?, io: FlushIo) returns (ok: bool)
      requires data != path
      requires data == null ==> io.syncOk
      modifies data, path, this`dirty
      ensures old(dirty) < SYNC_EVERY ==>
                ok && dirty == old(dirty) && path.f == old(path.f) && (data != null ==> data.f == old(data.f))
      ensures old(dirty) >= SYNC_EVERY ==>
                && ok == FlushOk(state.Length, io)
                && (data != null ==> data.f == FlushData(old(data.f), io))
                && path.f == FlushSide(old(path.f), state[..], io)
                && dirty == if ok then 0 else old(dirty)
    {
      if dirty < SYNC_EVERY { return true; }
      ok := FlushLocked(data, io);
    }

    /** Drops the sidecar when no byte is zero, and keeps it for the next session while any is. */
    method Close(removeOk: bool)
      modifies path
      ensures path.f == CloseSide(old(path.f), state[..], removeOk)
      ensures (exists i | 0 <= i < state.Length :: state[i] == 0) ==> path.f == old(path.f)
      ensures (forall i | 0 <= i < state.Length :: state[i] != 0) && removeOk ==> path.f.live == None
    {
      for i := 0 to state.Length
        invariant path.f == old(path.f)
        invariant forall j | 0 <= j < i :: state[j] != 0
      {
        if state[i] == 0 {
          assert !AllDone(state[..]) by { assert state[..][i] == 0; }
          return;
        }
      }
      if removeOk { path.f := Remove(path.f); }
    }
  }
}
