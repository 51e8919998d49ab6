/**
 The parts together: signatures from the provider's ledger, blocks from the archive, rows in the table.  A
 run that returns nil with no failures leaves one row for each of the wallet's transactions in the epoch.
 */
module EndToEnd {
  import opened Prelude
  import B = BlockReader
  import C = Car
  import E = Extract
  import P = Pipeline
  import R = Region
  import S = Sigs
  import T = Store
  import PipelineReads
  import PipelineStore

  /**
   Where the data comes from: the provider's ledger, the archive with its decoders and indexes, how a
   transaction node of a block decodes, and how a row is laid out in the table besides its signature.
   */
  datatype Sources = Sources(
    ledger: seq<S.Tx>, epoch: Uint64, cids: C.CidParser, decoders: R.Decoders, archive: B.Archive, ix: B.Indexes,
    decode: R.ParsedTx -> E.Tx, wallet: string, tips: map<string, string>, layout: E.Landing -> string)

  // ---- What one read of a slot gives ----

  function Decoded(c: Sources, txs: seq<R.ParsedTx>): seq<E.Tx> {
    seq(|txs|, i requires 0 <= i < |txs| => c.decode(txs[i]))
  }

  lemma DecodedAt(c: Sources, txs: seq<R.ParsedTx>, i: nat)
    requires i < |txs|
    ensures |Decoded(c, txs)| == |txs| && Decoded(c, txs)[i] == c.decode(txs[i])
  {}

  function Rows(c: Sources, out: seq<E.Landing>): seq<T.Row> {
    seq(|out|, i requires 0 <= i < |out| => T.Row(out[i].sig, c.layout(out[i])))
  }

  function PlaceOf(b: R.ParsedBlock, slot: T.Slot): E.Place {
    E.Place(if b.leader.Some? then b.leader.value else "", slot, b.txCount)
  }

  /** The columns that tell of the block are those of the block that was read. */
  lemma RowTellsTheBlock(c: Sources, b: R.ParsedBlock, slot: T.Slot, out: seq<E.Landing>, now: int, i: nat)
    requires E.Collected(out, Decoded(c, b.txs), c.wallet, PlaceOf(b, slot), c.tips, now) && i < |out|
    ensures out[i].slot == slot && out[i].leader == (match b.leader case Some(name) => name case None => "")
    ensures var index := E.Chosen(Decoded(c, b.txs), c.wallet)[i].index;
            out[i].blockTxCount
            == if index.Some? && index.value >= 0 && b.txCount > 0 then Some(b.txCount) else None
  {
    assert E.RowFor(out[i], E.Chosen(Decoded(c, b.txs), c.wallet)[i], c.wallet, PlaceOf(b, slot), c.tips);
  }

  /** `rows` are those a worker makes of one successful ReadBlock, against a server that honours ranges. */
  ghost predicate ReadGives(c: Sources, slot: T.Slot, rows: seq<T.Row>) {
    exists resp, r: R.Result, out, now ::
      && B.HonoursSlot(B.CarBytes(c.archive), c.ix, slot, resp) && B.Reads(c.cids, c.decoders, c.ix, slot, resp, r)
      && r.Parsed? && E.Collected(out, Decoded(c, r.block.txs), c.wallet, PlaceOf(r.block, slot), c.tips, now)
      && rows == Rows(c, out)
  }

  /** The body of a worker's loop: a block read and, if it parses, its rows. */
  method ReadSlot(c: Sources, slot: T.Slot, resp: B.Response, now: int) returns (rows: Option<seq<T.Row>>)
    requires B.HonoursSlot(B.CarBytes(c.archive), c.ix, slot, resp)
    ensures rows.Some? ==> ReadGives(c, slot, rows.value)
  {
    var r := B.ReadBlock(c.cids, c.decoders, c.ix, slot, resp);
    if !r.Parsed? { return None; }
    var out := E.Collect(Decoded(c, r.block.txs), c.wallet, PlaceOf(r.block, slot), c.tips, now);
    return Some(Rows(c, out));
  }

  /** The wallet's transactions of a slot, as resolving every link of its block in the archive gives them. */
  ghost function InBlock(c: Sources, slot: T.Slot): seq<E.Tx>
    requires slot in c.ix.slotToCid
  {
    match B.NaiveBlock(c.decoders, c.archive, c.ix, slot)
    case Parsed(b) => E.Chosen(Decoded(c, b.txs), c.wallet)
    case _ => []
  }

  /** A read's rows are the slot's transactions', one each, in order. */
  lemma ReadIsTheBlock(c: Sources, slot: T.Slot, rows: seq<T.Row>)
    requires B.WellFormed(c.cids, c.decoders, c.archive) && B.Consistent(c.archive, c.ix, slot)
    requires ReadGives(c, slot, rows)
    ensures slot in c.ix.slotToCid && |rows| == |InBlock(c, slot)|
    ensures forall i | 0 <= i < |rows| :: HasSig(InBlock(c, slot)[i], rows[i].sig)
  {
    var resp, r: R.Result, out, now :|
      && B.HonoursSlot(B.CarBytes(c.archive), c.ix, slot, resp) && B.Reads(c.cids, c.decoders, c.ix, slot, resp, r)
      && r.Parsed? && E.Collected(out, Decoded(c, r.block.txs), c.wallet, PlaceOf(r.block, slot), c.tips, now)
      && rows == Rows(c, out);
    B.ReadBlockRefines(c.cids, c.decoders, c.archive, c.ix, slot, resp, r);
    CollectedSigs(c, out, Decoded(c, r.block.txs), PlaceOf(r.block, slot), now);
  }

  lemma CollectedSigs(c: Sources, out: seq<E.Landing>, txs: seq<E.Tx>, place: E.Place, now: int)
    requires E.Collected(out, txs, c.wallet, place, c.tips, now)
    ensures |Rows(c, out)| == |E.Chosen(txs, c.wallet)|
    ensures forall i | 0 <= i < |out| :: HasSig(E.Chosen(txs, c.wallet)[i], Rows(c, out)[i].sig)
  {
    forall i | 0 <= i < |out| ensures HasSig(E.Chosen(txs, c.wallet)[i], Rows(c, out)[i].sig) {
      assert E.RowFor(out[i], E.Chosen(txs, c.wallet)[i], c.wallet, place, c.tips);
    }
  }

  predicate HasSig(tx: E.Tx, sig: string) { tx.sigs.Some? && tx.sigs.value != [] && tx.sigs.value[0] == sig }

  // ---- What discovery gives ----

  function Wanted(c: Sources): seq<S.SigRef> {
    var (first, last) := S.EpochBounds(c.epoch);
    S.Wanted(c.ledger, first, last)
  }

  function WantedSlots(c: Sources): set<int> { set r | r in Wanted(c) :: r.slot }

  lemma {:induction false} WantedMembers(txs: seq<S.Tx>, first: int, last: int, sig: S.Sig, slot: Uint64)
    ensures S.SigRef(sig, slot) in S.Wanted(txs, first, last)
            <==> S.Tx(sig, slot, true) in txs && first <= slot <= last
  {
    if txs != [] {
      WantedMembers(txs[1..], first, last, sig, slot);
      assert txs == [txs[0]] + txs[1..];
    }
  }

  ghost predicate SigsDistinct(refs: seq<S.SigRef>) {
    forall i, j | 0 <= i < j < |refs| :: refs[i].sig != refs[j].sig
  }

  lemma {:induction false} WantedDistinct(txs: seq<S.Tx>, first: int, last: int)
    requires forall i, j | 0 <= i < j < |txs| :: txs[i].sig != txs[j].sig
    ensures SigsDistinct(S.Wanted(txs, first, last))
  {
    if txs != [] {
      var t, rest := txs[0], S.Wanted(txs[1..], first, last);
      WantedDistinct(txs[1..], first, last);
      forall i | 0 <= i < |rest| ensures rest[i].sig != t.sig {
        WantedMembers(txs[1..], first, last, rest[i].sig, rest[i].slot);
        assert rest[i] == S.SigRef(rest[i].sig, rest[i].slot);
      }
    }
  }

  lemma WantedInEpoch(c: Sources, r: S.SigRef)
    requires r in Wanted(c)
    ensures S.EpochBounds(c.epoch).0 <= r.slot <= S.EpochBounds(c.epoch).1
  {
    var (first, last) := S.EpochBounds(c.epoch);
    WantedMembers(c.ledger, first, last, r.sig, r.slot);
    assert r == S.SigRef(r.sig, r.slot);
  }

  /** The slots of a successful paging, without repeats. */
  method DiscoverSlots(c: Sources, getBlock: Uint64 -> bool, rpc: nat -> Option<nat>)
    returns (slots: Option<seq<T.Slot>>)
    requires S.WellFormed(c.ledger) && S.EpochBounds(c.epoch).1 < TWO_63
    ensures slots.Some? ==> Discovered(c, P.Members(slots.value))
    ensures (forall page :: rpc(page).Some?) ==> slots.Some?
  {
    var refs := S.DiscoverSignatures(c.ledger, c.epoch, getBlock, rpc);
    if refs.None? { return None; }
    var all := SlotsOf(c, refs.value);
    var distinct := T.DistinctSlots(all);
    SlotsOfRefs(c, refs.value, all, distinct);
    return Some(distinct);
  }

  method SlotsOf(c: Sources, refs: seq<S.SigRef>) returns (all: seq<T.Slot>)
    requires S.EpochBounds(c.epoch).1 < TWO_63 && forall r | r in refs :: r in Wanted(c)
    ensures |all| == |refs| && forall k | 0 <= k < |all| :: all[k] == refs[k].slot
  {
    all := [];
    for i := 0 to |refs|
      invariant |all| == i && forall k | 0 <= k < i :: all[k] == refs[k].slot
    {
      WantedInEpoch(c, refs[i]);
      all := all + [refs[i].slot];
    }
  }

  lemma SlotsOfRefs(c: Sources, refs: seq<S.SigRef>, all: seq<T.Slot>, distinct: seq<T.Slot>)
    requires refs == Wanted(c) && |all| == |refs| && forall k | 0 <= k < |all| :: all[k] == refs[k].slot
    requires T.IsDistinct(all, distinct)
    ensures Discovered(c, P.Members(distinct))
  {
    forall s: T.Slot ensures s in distinct <==> s in WantedSlots(c) {
      if r :| r in refs && r.slot == s {
        var k :| 0 <= k < |all| && refs[k] == r;
        assert all[k] in all;
      }
    }
  }

  ghost predicate Discovered(c: Sources, slots: set<T.Slot>) {
    forall s: T.Slot :: s in slots <==> s in WantedSlots(c)
  }

  // ---- One chain ----

  /** The ledger and the archive tell of the same transactions of the wallet, slot by slot of the epoch. */
  ghost predicate SameChain(c: Sources) {
    forall slot: T.Slot | slot in WantedSlots(c) && slot in c.ix.slotToCid :: SameSlot(c, slot)
  }

  ghost predicate SameSlot(c: Sources, slot: T.Slot)
    requires slot in c.ix.slotToCid
  {
    && (forall i | 0 <= i < |InBlock(c, slot)| :: Listed(c, slot, InBlock(c, slot)[i]))
    && forall r | r in Wanted(c) && r.slot == slot :: Archived(c, slot, r.sig)
  }

  /** The ledger lists the transaction under its signature. */
  ghost predicate Listed(c: Sources, slot: T.Slot, tx: E.Tx) {
    tx.sigs.Some? && tx.sigs.value != [] ==> S.SigRef(tx.sigs.value[0], slot) in Wanted(c)
  }

  /** The slot's block has a transaction of the wallet with that signature. */
  ghost predicate Archived(c: Sources, slot: T.Slot, sig: string)
    requires slot in c.ix.slotToCid
  {
    exists i :: 0 <= i < |InBlock(c, slot)| && HasSig(InBlock(c, slot)[i], sig)
  }

  /** What is assumed of the sources; the epoch's slots are ones that the table can hold. */
  ghost predicate Sound(c: Sources) {
    && S.WellFormed(c.ledger) && S.EpochBounds(c.epoch).1 < TWO_63
    && B.WellFormed(c.cids, c.decoders, c.archive)
    && (forall slot: T.Slot | slot in WantedSlots(c) :: B.Consistent(c.archive, c.ix, slot))
    && SameChain(c)
  }

  /** What a read of a slot of the epoch gives, against sources that are sound. */
  ghost predicate ReadInBlock(c: Sources, slot: T.Slot, rows: seq<T.Row>) {
    && slot in c.ix.slotToCid && |rows| == |InBlock(c, slot)| && SameSlot(c, slot)
    && forall i | 0 <= i < |rows| :: HasSig(InBlock(c, slot)[i], rows[i].sig)
  }

  lemma SlotRead(c: Sources, slot: T.Slot, rows: seq<T.Row>)
    requires Sound(c) && slot in WantedSlots(c) && ReadGives(c, slot, rows)
    ensures ReadInBlock(c, slot, rows)
  {
    ReadIsTheBlock(c, slot, rows);
    assert SameSlot(c, slot);
  }

  lemma RowListed(c: Sources, slot: T.Slot, rows: seq<T.Row>, row: T.Row)
    requires ReadInBlock(c, slot, rows) && row in rows
    ensures S.SigRef(row.sig, slot) in Wanted(c)
  {
    var i :| 0 <= i < |rows| && rows[i] == row;
    assert Listed(c, slot, InBlock(c, slot)[i]);
  }

  lemma RowRead(c: Sources, slot: T.Slot, rows: seq<T.Row>, r: S.SigRef) returns (row: T.Row)
    requires ReadInBlock(c, slot, rows) && r in Wanted(c) && r.slot == slot
    ensures row in rows && row.sig == r.sig
  {
    assert Archived(c, slot, r.sig);
    var i :| 0 <= i < |InBlock(c, slot)| && HasSig(InBlock(c, slot)[i], r.sig);
    row := rows[i];
  }

  // ---- The whole run ----

  ghost function Readings(c: Sources): PipelineReads.Readings {
    (slot: T.Slot, rows: seq<T.Row>) => ReadGives(c, slot, rows)
  }

  /** Every read is one of a block, and every discovery is the paging's list without repeated slots. */
  ghost predicate Faithful(c: Sources, concurrency: int, steps: seq<P.Step>, w: P.World, slots: set<T.Slot>)
    requires P.Executes(concurrency, P.BLANK, steps, w)
  {
    Discovered(c, slots) && PipelineReads.TrueSteps(concurrency, P.BLANK, steps, w, Readings(c), slots)
  }

  ghost predicate OneRowEach(c: Sources, landing: map<string, T.Row>) {
    && (forall key :: key in landing <==> exists r :: r in Wanted(c) && r.sig == key)
    && (forall key | key in landing :: landing[key].sig == key)
    && |landing| == |Wanted(c)|
  }

  function SigSet(refs: seq<S.SigRef>): set<string> { set r | r in refs :: r.sig }

  lemma SigSetPush(refs: seq<S.SigRef>, last: S.SigRef)
    ensures SigSet(refs + [last]) == SigSet(refs) + {last.sig}
  {
    assert forall r :: r in refs + [last] <==> r in refs || r == last;
  }

  lemma LastIsNew(refs: seq<S.SigRef>)
    requires SigsDistinct(refs) && refs != []
    ensures SigsDistinct(refs[..|refs| - 1]) && refs[|refs| - 1].sig !in SigSet(refs[..|refs| - 1])
  {}

  lemma {:induction false} CountSigs(refs: seq<S.SigRef>)
    requires SigsDistinct(refs)
    ensures |SigSet(refs)| == |refs|
  {
    if refs != [] {
      var front, last := refs[..|refs| - 1], refs[|refs| - 1];
      assert refs == front + [last];
      LastIsNew(refs);
      SigSetPush(front, last);
      CountSigs(front);
      assert |SigSet(front) + {last.sig}| == |SigSet(front)| + 1;
    }
  }

  ghost predicate Committed(c: Sources, w: P.World, slots: set<T.Slot>) {
    && Discovered(c, slots) && PipelineStore.LogSlots(w.log) == slots
    && forall e | e in w.log :: ReadGives(c, e.slot, e.rows)
  }

  lemma FromLedger(c: Sources, w: P.World, e: P.Commit, row: T.Row, slots: set<T.Slot>)
    requires Sound(c) && Committed(c, w, slots) && e in w.log && row in e.rows
    ensures S.SigRef(row.sig, e.slot) in Wanted(c)
  {
    assert e.slot in PipelineStore.LogSlots(w.log);
    SlotRead(c, e.slot, e.rows);
    RowListed(c, e.slot, e.rows, row);
  }

  lemma IntoTable(c: Sources, w: P.World, r: S.SigRef, slots: set<T.Slot>) returns (e: P.Commit, row: T.Row)
    requires Sound(c) && Committed(c, w, slots) && r in Wanted(c)
    ensures e in w.log && row in e.rows && row.sig == r.sig
  {
    WantedInEpoch(c, r);
    assert r.slot in WantedSlots(c) && r.slot in PipelineStore.LogSlots(w.log);
    e :| e in w.log && e.slot == r.slot;
    SlotRead(c, e.slot, e.rows);
    row := RowRead(c, e.slot, e.rows, r);
  }

  lemma KeysAreSigs(c: Sources, w: P.World, slots: set<T.Slot>, key: string)
    requires Sound(c) && Committed(c, w, slots) && PipelineReads.TableOf(w.db.landing, w.log)
    ensures key in w.db.landing <==> exists r :: r in Wanted(c) && r.sig == key
  {
    if key in w.db.landing {
      var e :| e in w.log && w.db.landing[key] in e.rows;
      FromLedger(c, w, e, w.db.landing[key], slots);
      assert S.SigRef(key, e.slot) in Wanted(c);
    }
    if r :| r in Wanted(c) && r.sig == key {
      var e, row := IntoTable(c, w, r, slots);
    }
  }

  lemma AsManyRows(c: Sources, landing: map<string, T.Row>)
    requires S.WellFormed(c.ledger)
    requires forall key :: key in landing <==> exists r :: r in Wanted(c) && r.sig == key
    ensures |landing| == |Wanted(c)|
  {
    var (first, last) := S.EpochBounds(c.epoch);
    WantedDistinct(c.ledger, first, last);
    CountSigs(Wanted(c));
    assert landing.Keys == SigSet(Wanted(c));
  }

  /**
   A nil return with no failures: the landing table has exactly one row for each of the wallet's transactions
   of the epoch, and every row is one that reading the block of its transaction's own slot gave.
   */
  lemma OneRowPerTransaction(
      c: Sources, concurrency: int, steps: seq<P.Step>, w: P.World, slots: set<T.Slot>)
    requires Sound(c) && P.Executes(concurrency, P.BLANK, steps, w) && Faithful(c, concurrency, steps, w, slots)
    requires w.proc.Ended? && w.proc.r.Finished? && w.proc.r.failures == 0
    ensures OneRowEach(c, w.db.landing)
    ensures forall key | key in w.db.landing ::
              exists e :: e in w.log && w.db.landing[key] in e.rows && ReadGives(c, e.slot, e.rows)
                          && S.SigRef(key, e.slot) in Wanted(c)
  {
    PipelineReads.CompleteRun(concurrency, steps, w, Readings(c), slots);
    assert Committed(c, w, slots) by {
      forall e | e in w.log ensures ReadGives(c, e.slot, e.rows) { assert Readings(c)(e.slot, e.rows); }
    }
    forall key ensures key in w.db.landing <==> exists r :: r in Wanted(c) && r.sig == key {
      KeysAreSigs(c, w, slots, key);
    }
    AsManyRows(c, w.db.landing);
    forall key | key in w.db.landing
      ensures exists e :: e in w.log && w.db.landing[key] in e.rows && ReadGives(c, e.slot, e.rows)
                          && S.SigRef(key, e.slot) in Wanted(c)
    {
      var e :| e in w.log && w.db.landing[key] in e.rows;
      FromLedger(c, w, e, w.db.landing[key], slots);
    }
  }
}
