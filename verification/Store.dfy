/** backfill/store.go over landing/landing.go: the work list and the rows, changed only in transactions. */
module Store {
  import opened Prelude

  /** A slot as the table stores it, in a signed 64-bit column. */
  type Slot = s: int | 0 <= s < TWO_63

  /** A landing row: its primary key, and the rest. */
  datatype Row = Row(sig: string, rest: string)

  const BATCH: nat := 500

  /** The bookkeeping key that says discovery is done, and its value. */
  const DISCOVERED: string := "discovered"
  const YES: string := "1"

  // ---- Tables as values ----

  /** INSERT ... ON CONFLICT(slot) DO NOTHING, with done = 0. */
  function Seeded(slots: map<Slot, bool>, more: seq<Slot>): map<Slot, bool> {
    (map s | s in more :: false) + slots
  }

  /** One row of that statement. */
  function SeededOne(slots: map<Slot, bool>, slot: Slot): map<Slot, bool> {
    if slot in slots then slots else slots[slot := false]
  }

  lemma SeedOne(slots: map<Slot, bool>, more: seq<Slot>, i: nat)
    requires i < |more|
    ensures Seeded(slots, more[..i + 1]) == SeededOne(Seeded(slots, more[..i]), more[i])
  {
    assert forall s :: s in more[..i + 1] <==> s in more[..i] || s == more[i];
  }

  /** UPDATE ... SET done = 1 WHERE slot = ? */
  function Marked(slots: map<Slot, bool>, slot: Slot): map<Slot, bool> {
    if slot in slots then slots[slot := true] else slots
  }

  /** INSERT ... ON CONFLICT(sig) DO NOTHING */
  function Inserted(rows: map<string, Row>, row: Row): map<string, Row> {
    if row.sig in rows then rows else rows[row.sig := row]
  }

  function InsertedAll(rows: map<string, Row>, more: seq<Row>): map<string, Row> {
    if more == [] then rows else Inserted(InsertedAll(rows, more[..|more| - 1]), more[|more| - 1])
  }

  /** Rows already there stay, and every new signature has a row. */
  lemma {:induction false} InsertKeeps(rows: map<string, Row>, more: seq<Row>)
    ensures forall k | k in rows :: k in InsertedAll(rows, more) && InsertedAll(rows, more)[k] == rows[k]
    ensures forall i | 0 <= i < |more| :: more[i].sig in InsertedAll(rows, more)
  {
    if more != [] { InsertKeeps(rows, more[..|more| - 1]); }
  }

  ghost predicate IsFirst(more: seq<Row>, i: int, key: string) {
    0 <= i < |more| && more[i].sig == key && forall j | 0 <= j < i :: more[j].sig != key
  }

  /** A signature that comes in brings the first of its new rows. */
  lemma {:induction false} InsertTakesFirst(rows: map<string, Row>, more: seq<Row>, key: string)
    requires key in InsertedAll(rows, more) && key !in rows
    ensures exists i: nat :: IsFirst(more, i, key) && InsertedAll(rows, more)[key] == more[i]
  {
    var k := |more| - 1;
    if key in InsertedAll(rows, more[..k]) {
      InsertTakesFirst(rows, more[..k], key);
      var i: nat :| IsFirst(more[..k], i, key) && InsertedAll(rows, more[..k])[key] == more[..k][i];
      assert IsFirst(more, i, key);
    } else {
      InsertKeeps(rows, more[..k]);
      assert forall j | 0 <= j < k :: more[..k][j].sig != key;
      assert IsFirst(more, k, key);
    }
  }

  ghost predicate IsPending(slots: map<Slot, bool>, out: seq<Slot>) {
    (forall s :: s in out <==> s in slots && !slots[s]) && Ascending(out)
  }

  /** The value of a key, and "" for a key that is missing or that cannot be read just now. */
  function Lookup(meta: map<string, string>, key: string, readOk: bool): string {
    if readOk && key in meta then meta[key] else ""
  }

  /** What discover asks before anything else. */
  predicate SaysDiscovered(meta: map<string, string>, readOk: bool) { Lookup(meta, DISCOVERED, readOk) == YES }

  /** INSERT ... ON CONFLICT(key) DO UPDATE */
  function Upserted(meta: map<string, string>, key: string, value: string): map<string, string> {
    meta[key := value]
  }

  /** INSERT statements of one SeedSlots. */
  function Batches(slots: nat): nat { (slots + BATCH - 1) / BATCH }

  // ---- The database ----

  /** How a transaction's statements go: BEGIN, the first statement that fails, COMMIT. */
  datatype TxIo = TxIo(beginOk: bool, failAt: nat, commitOk: bool)

  class EpochDB {
    var slots: map<Slot, bool>
    var meta: map<string, string>
    var landing: map<string, Row>

    constructor ()
      ensures slots == map[] && meta == map[] && landing == map[]
    {
      slots, meta, landing := map[], map[], map[];
    }

    method Meta(key: string, readOk: bool) returns (value: string)
      ensures value == Lookup(meta, key, readOk)
    {
      if !readOk || key !in meta { return ""; }
      return meta[key];
    }

    /** On success the key reads back as the value, whenever it can be read, and the others as before. */
    method SetMeta(key: string, value: string, ok: bool) returns (done: bool)
      modifies this`meta
      ensures done == ok
      ensures meta == if ok then Upserted(old(meta), key, value) else old(meta)
      ensures ok ==> Lookup(meta, key, true) == value
      ensures forall k, readOk | !ok || k != key :: Lookup(meta, k, readOk) == Lookup(old(meta), k, readOk)
    {
      if ok { meta := meta[key := value]; }
      return ok;
    }

    /** All of the slots come into the work list, or on any error none; a slot already there keeps its flag. */
    method SeedSlots(more: seq<Slot>, io: TxIo) returns (ok: bool)
      modifies this`slots
      ensures slots == if ok then Seeded(old(slots), more) else old(slots)
      ensures ok <==> |more| == 0 || (io.beginOk && io.failAt >= (|more| + 499) / 500 && io.commitOk)
      ensures forall s :: s in slots <==> s in old(slots) || (ok && s in more)
      ensures forall s | s in slots :: slots[s] == if s in old(slots) then old(slots)[s] else false
    {
      if |more| == 0 {
        assert Seeded(slots, more) == slots;
        return true;
      }
      if !io.beginOk { return false; }
      var table := slots;
      var start, statement := 0, 0;
      while start < |more|
        invariant slots == old(slots) && statement <= io.failAt
        invariant start == Min(statement * BATCH, |more|) && statement <= Batches(|more|)
        invariant table == Seeded(slots, more[..start])
      {
        if statement == io.failAt { return false; }
        var end := Min(start + BATCH, |more|);
        table := InsertBatch(slots, table, more, start, end);
        start, statement := end, statement + 1;
      }
      if !io.commitOk { return false; }
      assert more[..start] == more;
      slots := table;
      return true;
    }

    /** One INSERT statement, over `more[start..end]`. */
    static method InsertBatch(
        ghost before: map<Slot, bool>, was: map<Slot, bool>, more: seq<Slot>, start: nat, end: nat)
      returns (table: map<Slot, bool>)
      requires start <= end <= |more| && was == Seeded(before, more[..start])
      ensures table == Seeded(before, more[..end])
    {
      table := was;
      for i := start to end
        invariant table == Seeded(before, more[..i])
      {
        table := InsertOne(before, table, more, i);
      }
    }

    static method InsertOne(ghost before: map<Slot, bool>, was: map<Slot, bool>, more: seq<Slot>, i: nat)
      returns (table: map<Slot, bool>)
      requires i < |more| && was == Seeded(before, more[..i])
      ensures table == Seeded(before, more[..i + 1])
    {
      SeedOne(before, more, i);
      table := SeededOne(was, more[i]);
    }

    /** The slots still to process, oldest first. */
    method PendingSlots() returns (out: seq<Slot>)
      ensures IsPending(slots, out)
    {
      out := [];
      var rest := set s | s in slots && !slots[s];
      while rest != {}
        invariant forall s :: s in rest || s in out <==> s in slots && !slots[s]
        invariant forall i, s | 0 <= i < |out| && s in rest :: out[i] < s
        invariant forall i, j | 0 <= i < j < |out| :: out[i] < out[j]
        decreases rest
      {
        ghost var least := Least(rest);
        var s :| s in rest && forall t | t in rest :: s <= t;
        out, rest := out + [s], rest - {s};
      }
    }

    /** The rows and the done flag commit together or not at all. */
    method WriteSlot(slot: Slot, rows: seq<Row>, io: TxIo) returns (ok: bool)
      modifies this`slots, this`landing
      ensures ok ==> landing == InsertedAll(old(landing), rows) && slots == Marked(old(slots), slot)
      ensures !ok ==> landing == old(landing) && slots == old(slots)
      ensures ok <==> io.beginOk && io.failAt > |rows| && io.commitOk
    {
      if !io.beginOk { return false; }
      var table := landing;
      for i := 0 to |rows|
        invariant table == InsertedAll(landing, rows[..i])
        invariant i <= io.failAt
      {
        if i == io.failAt { return false; }
        assert rows[..i + 1][..i] == rows[..i];
        table := Inserted(table, rows[i]);
      }
      if io.failAt == |rows| || !io.commitOk { return false; }
      assert rows[..|rows|] == rows;
      landing := table;
      slots := Marked(slots, slot);
      return true;
    }
  }

  lemma {:induction false} Least(s: set<Slot>) returns (m: Slot)
    requires s != {}
    ensures m in s && forall t | t in s :: m <= t
    decreases s
  {
    var x :| x in s;
    m := x;
    if s - {x} != {} {
      var least := Least(s - {x});
      m := if least < x then least else x;
    }
    assert forall t | t in s :: t == x || t in s - {x};
  }

  // ---- Discovery's slots, without repeats ----

  /** `out` holds each slot of `refs` once, in the order of first appearance. */
  ghost predicate IsDistinct(refs: seq<Slot>, out: seq<Slot>) {
    && (forall s :: s in refs <==> s in out)
    && forall i, j | 0 <= i < j < |out| :: FirstAt(refs, out[i]) < FirstAt(refs, out[j])
  }

  function FirstAt(refs: seq<Slot>, s: Slot): (i: nat)
    ensures i <= |refs| && (s in refs ==> i < |refs| && refs[i] == s)
    ensures forall k | 0 <= k < i :: refs[k] != s
  {
    if refs == [] then 0 else if refs[0] == s then 0 else 1 + FirstAt(refs[1..], s)
  }

  lemma FirstOfNew(refs: seq<Slot>, n: nat)
    requires n < |refs| && refs[n] !in refs[..n]
    ensures FirstAt(refs, refs[n]) == n
  {
    assert forall k | 0 <= k < n :: refs[..n][k] == refs[k];
  }

  /** `out` is that for the first `n`. */
  ghost predicate DistinctUpTo(refs: seq<Slot>, n: nat, out: seq<Slot>)
    requires n <= |refs|
  {
    && (forall s :: s in refs[..n] <==> s in out)
    && (forall i, j | 0 <= i < j < |out| :: FirstAt(refs, out[i]) < FirstAt(refs, out[j]))
    && forall i | 0 <= i < |out| :: FirstAt(refs, out[i]) < n
  }

  lemma DistinctSeen(refs: seq<Slot>, n: nat, out: seq<Slot>)
    requires n < |refs| && DistinctUpTo(refs, n, out) && refs[n] in out
    ensures DistinctUpTo(refs, n + 1, out)
  {
    assert refs[..n + 1] == refs[..n] + [refs[n]];
  }

  lemma DistinctNew(refs: seq<Slot>, n: nat, out: seq<Slot>)
    requires n < |refs| && DistinctUpTo(refs, n, out) && refs[n] !in out
    ensures DistinctUpTo(refs, n + 1, out + [refs[n]])
  {
    assert refs[..n + 1] == refs[..n] + [refs[n]];
    FirstOfNew(refs, n);
  }

  lemma DistinctEnd(refs: seq<Slot>, out: seq<Slot>)
    requires DistinctUpTo(refs, |refs|, out)
    ensures IsDistinct(refs, out)
  {
    assert refs[..|refs|] == refs;
  }

  /** distinctSlots, and GsfaIndex.Slots over the index's answer. */
  method DistinctSlots(refs: seq<Slot>) returns (out: seq<Slot>)
    ensures IsDistinct(refs, out)
  {
    var seen: set<Slot> := {};
    out := [];
    for n := 0 to |refs|
      invariant forall s :: s in seen <==> s in out
      invariant DistinctUpTo(refs, n, out)
    {
      if refs[n] in seen {
        DistinctSeen(refs, n, out);
      } else {
        DistinctNew(refs, n, out);
        seen, out := seen + {refs[n]}, out + [refs[n]];
      }
    }
    DistinctEnd(refs, out);
  }
}
