/**
 Two blocks, and in the second one transaction of the wallet's: what the end-to-end theorem asks of its sources
 and of a run can be met together, by a chain with something to find.
 */
module SmallChain {
  import opened Prelude
  import opened Car
  import opened Region
  import opened RegionProps
  import opened BlockReader
  import opened EndToEnd
  import Strings
  import Wsol

  // ---- The archive ----

  const FIRST_BLOCK: Section := Section([1], [0, 2])
  const TX_NODE: Section := Section([4], [0, 0])
  const ENTRY_NODE: Section := Section([3], [0, 1])
  const SECOND_BLOCK: Section := Section([2], [1, 2])

  const CHILDREN: seq<Section> := [TX_NODE, ENTRY_NODE, SECOND_BLOCK]
  const NODES: seq<Section> := [FIRST_BLOCK, TX_NODE, ENTRY_NODE, SECOND_BLOCK]
  const ARCHIVE: Archive := Archive([], [Group(0, [FIRST_BLOCK]), Group(1, CHILDREN)], [])

  /** A CID is one byte here. */
  const CIDS: CidParser := (b: Bytes) => if b == [] then 0 else 1

  const DECODERS: Decoders := Decoders(
    (b: Bytes) => Some(b),
    (b: Bytes) => Some(Entry([[4]])),
    (b: Bytes) => Some(Block(if b == [1, 2] then [[3]] else [], None)),
    (b: Bytes) => None,
    (n: TxNode) => None)

  const INDEXES: Indexes := Indexes(map[0 := [1], 1 := [2]], map[[1] := (0, 4), [2] := (12, 4)])

  lemma ArchiveLayout()
    ensures Flat(ARCHIVE.groups[..1]) == [FIRST_BLOCK] && Flat(ARCHIVE.groups) == NODES == AllSections(ARCHIVE)
    ensures ARCHIVE.groups[..2] == ARCHIVE.groups
  {
    var g := ARCHIVE.groups;
    assert g[..2] == g && g[..1] == [g[0]];
    assert Flat([]) == [] && g[..1][..0] == [];
    assert Flat(g[..1]) == Flat([]) + [FIRST_BLOCK];
    assert Flat(g) == Flat(g[..1]) + CHILDREN;
    assert AllSections(ARCHIVE) == NODES + [] == NODES;
  }

  lemma {:induction false} FourBytesEach(secs: seq<Section>)
    requires forall s | s in secs :: s in NODES
    ensures |Encode(secs)| == 4 * |secs|
  {
    if secs != [] {
      assert secs[0] in NODES;
      FourBytesEach(secs[1..]);
    }
  }

  lemma Ends()
    ensures EndOf(ARCHIVE, 1) == 4 && EndOf(ARCHIVE, 2) == 16 == |CarBytes(ARCHIVE)|
  {
    ArchiveLayout();
    FourBytesEach([FIRST_BLOCK]);
    FourBytesEach(NODES);
  }

  lemma NodesAreDetermined()
    ensures CidDetermined(NODES) && CidDetermined(CHILDREN)
  {
    forall s, t ensures SameBytes(NODES, s, t) {}
    assert forall s | s in CHILDREN :: s in NODES;
    SomeDetermined(CHILDREN, NODES);
  }

  /** The node table, looked up in either of the two lists. */
  lemma Tables(secs: seq<Section>)
    requires secs == NODES || secs == CHILDREN
    ensures var m := Table(secs);
            && [2] in m && m[[2]] == SECOND_BLOCK.data && [3] in m && m[[3]] == ENTRY_NODE.data
            && [4] in m && m[[4]] == TX_NODE.data && ([1] in m ==> m[[1]] == FIRST_BLOCK.data)
  {
    NodesAreDetermined();
    TableHolds(secs);
    assert SECOND_BLOCK in secs && ENTRY_NODE in secs && TX_NODE in secs;
    var m := Table(secs);
    if [1] in m { assert Section([1], m[[1]]) in secs; }
  }

  lemma ChildrenAreThere(g: Group)
    ensures ChildrenInGroup(DECODERS, ARCHIVE, g)
  {
    ArchiveLayout();
    Tables(NODES);
    Tables(CHILDREN);
  }

  lemma ArchiveIsWellFormed()
    ensures WellFormed(CIDS, DECODERS, ARCHIVE)
  {
    ArchiveLayout();
    Ends();
    NodesAreDetermined();
    forall a, b ensures IgnoresRest(CIDS, a, b) {}
    forall b, k ensures NeedsOnly(CIDS, b, k) {}
    forall s ensures SoundIn(CIDS, ARCHIVE, s) {}
    forall i, j ensures InOrder(ARCHIVE, i, j) {}
    forall g ensures ChildrenInGroup(DECODERS, ARCHIVE, g) { ChildrenAreThere(g); }
  }

  lemma IndexesAreConsistent()
    ensures Consistent(ARCHIVE, INDEXES, 1)
  {
    Ends();
    assert Indexed(ARCHIVE, INDEXES, 1, 1);
    assert NamesEarlier(ARCHIVE, INDEXES, 1, 0, 0);
    assert Located(ARCHIVE, INDEXES, 0) && Located(ARCHIVE, INDEXES, 1);
  }

  const BLOCK: ParsedBlock := ParsedBlock(None, 1, [ParsedTx(TX_NODE.data, None)])

  /** Slot 1's block, through the archive: its one transaction. */
  lemma SecondBlock()
    ensures NaiveBlock(DECODERS, ARCHIVE, INDEXES, 1) == Parsed(BLOCK)
  {
    ArchiveLayout();
    Tables(NODES);
    var m := Table(NODES);
    assert ResolveEntry(DECODERS, m, [3]) == Some(Entry([[4]]));
    assert ResolveTxs(DECODERS, m, [[4]]) == [ParsedTx(TX_NODE.data, None)];
    assert CollectTxs(DECODERS, m, [[3]]) == [] + [ParsedTx(TX_NODE.data, None)];
    assert CountTxs(DECODERS, m, [[3]]) == 1;
  }

  /** A server's answer to the range between the two blocks' ends. */
  const RESPONSE: Response := Answer(206, RegionOf(ARCHIVE, 1, 2))

  lemma SecondRegion()
    ensures |RESPONSE.body| == 12 && FramedAt(CarBytes(ARCHIVE), 4, RESPONSE.body)
  {
    Ends();
    RegionBytes(ARCHIVE, 1, 2);
  }

  lemma SecondBlockReadable()
    ensures IsAnchor(INDEXES, 1, 0) && ReadableFrom(INDEXES, 1, RESPONSE, 0)
    ensures forall at :: ReadableFrom(INDEXES, 1, RESPONSE, at) ==> at == 0
    ensures HonoursSlot(CarBytes(ARCHIVE), INDEXES, 1, RESPONSE)
  {
    SecondRegion();
    assert RESPONSE.body[..12] == RESPONSE.body;
    assert NodeEnd(INDEXES, 1) == Some(16) && NodeEnd(INDEXES, 0) == Some(4);
    assert Honours(CarBytes(ARCHIVE), 4, 12, RESPONSE);
  }

  /** A readable block is read as the archive resolves it. */
  lemma ReadsNaive(P: CidParser, D: Decoders, a: Archive, ix: Indexes, slot: nat, resp: Response, at: nat)
    requires WellFormed(P, D, a) && Consistent(a, ix, slot) && HonoursSlot(CarBytes(a), ix, slot, resp)
    requires ReadableFrom(ix, slot, resp, at) && forall t :: ReadableFrom(ix, slot, resp, t) ==> t == at
    ensures slot in ix.slotToCid && Reads(P, D, ix, slot, resp, NaiveBlock(D, a, ix, slot))
  {
    var r := Parse(P, D, resp.body[..NodeEnd(ix, slot).value - NodeEnd(ix, at).value], ix.slotToCid[slot]);
    RegionRead(P, D, ix, slot, resp, at, r);
    ReadBlockRefines(P, D, a, ix, slot, resp, r);
  }

  lemma ReadsSecondBlock()
    ensures Reads(CIDS, DECODERS, INDEXES, 1, RESPONSE, NaiveBlock(DECODERS, ARCHIVE, INDEXES, 1))
  {
    SecondBlockReadable();
    ArchiveIsWellFormed();
    IndexesAreConsistent();
    ReadsNaive(CIDS, DECODERS, ARCHIVE, INDEXES, 1, RESPONSE, 0);
  }

  // ---- The transaction, the ledger and the sources ----

  const WALLET: string := "w"
  const META: E.Meta := E.Meta(false, 0, 0, 0, [], [], [], [], [], [], [])
  const TX: E.Tx := E.Tx(None, Some(["s"]), [WALLET], 1, [], Some(META), None)
  const ROW: E.Landing := E.Landing(
    "s", 1, 0, None, None, "", "", true, 0, 0, 0, 0, 0, "", false, 0, 0, 0, "", 0)

  const SOURCES: Sources := Sources(
    [S.Tx("s", 1, true)], 0, CIDS, DECODERS, ARCHIVE, INDEXES, (tx: ParsedTx) => TX, WALLET, map[],
    (l: E.Landing) => "")

  lemma OneWanted()
    ensures S.WellFormed(SOURCES.ledger) && S.EpochBounds(0) == (0, 431999)
    ensures Wanted(SOURCES) == [S.SigRef("s", 1)] && WantedSlots(SOURCES) == {1}
  {
    assert S.Wanted([], 0, 431999) == [];
    assert S.Wanted(SOURCES.ledger, 0, 431999) == [S.SigRef("s", 1)] + [];
  }

  lemma OneInBlock()
    ensures InBlock(SOURCES, 1) == [TX]
  {
    SecondBlock();
    var txs := Decoded(SOURCES, BLOCK.txs);
    assert txs == [TX] && txs[..0] == [] && E.Chosen([], WALLET) == [];
    assert E.Chosen(txs, WALLET) == [] + [TX];
  }

  /** One transaction on either side. */
  lemma OneOfEach(c: Sources, slot: T.Slot, tx: E.Tx, sig: string)
    requires slot in c.ix.slotToCid && InBlock(c, slot) == [tx] && HasSig(tx, sig)
    requires Wanted(c) == [S.SigRef(sig, slot)]
    ensures SameSlot(c, slot)
  {
    assert HasSig(InBlock(c, slot)[0], sig);
  }

  lemma SoundForOneSlot(c: Sources, slot: T.Slot)
    requires S.WellFormed(c.ledger) && S.EpochBounds(c.epoch).1 < TWO_63 && WellFormed(c.cids, c.decoders, c.archive)
    requires WantedSlots(c) == {slot} && Consistent(c.archive, c.ix, slot)
    requires slot in c.ix.slotToCid ==> SameSlot(c, slot)
    ensures EndToEnd.Sound(c)
  {}

  lemma SourcesAreSound()
    ensures EndToEnd.Sound(SOURCES)
  {
    OneWanted();
    ArchiveIsWellFormed();
    IndexesAreConsistent();
    OneInBlock();
    OneOfEach(SOURCES, 1, TX, "s");
    SoundForOneSlot(SOURCES, 1);
  }

  lemma RowForTx()
    ensures E.RowFor(ROW, TX, WALLET, E.Place("", 1, 1), map[])
  {
    var keys := E.ResolveKeys(TX, META);
    assert keys == [WALLET];
    Strings.NoMembers([]);
    assert Strings.Lists({}, "") by { assert Strings.Sorted([]) && Strings.Join([], Strings.COMMA) == ""; }
    assert E.Names(E.Invoked([], []), keys) == {} && E.Lanes(keys, [], [], map[], 1) == {};
    assert E.TipSum(keys, [], [], map[], 1) == E.TipSum(keys, [], [], map[], 0) == 0;
    Wsol.SameIsCongruent(0);
    assert E.WalletMoved(keys, [], [], WALLET, 0);
  }

  const ROWS: seq<T.Row> := [T.Row("s", "")]

  lemma OneCollected(row: E.Landing, tx: E.Tx, txs: seq<E.Tx>, wallet: string, place: E.Place)
    requires txs == [tx] && E.RowFor(row, tx, wallet, place, map[]) && row.ts == 0
    ensures E.Collected([row], txs, wallet, place, map[], 0)
  {
    assert txs[..0] == [] && E.Chosen([], wallet) == [];
    assert E.Chosen(txs, wallet) == [] + [tx];
  }

  lemma CollectedRow()
    ensures E.Collected([ROW], Decoded(SOURCES, BLOCK.txs), WALLET, PlaceOf(BLOCK, 1), map[], 0)
    ensures Rows(SOURCES, [ROW]) == ROWS
  {
    RowForTx();
    OneCollected(ROW, TX, Decoded(SOURCES, BLOCK.txs), WALLET, PlaceOf(BLOCK, 1));
  }

  lemma RowIsGiven(c: Sources, slot: T.Slot, resp: Response, r: Result, out: seq<E.Landing>, now: int)
    requires HonoursSlot(CarBytes(c.archive), c.ix, slot, resp) && r.Parsed?
    requires Reads(c.cids, c.decoders, c.ix, slot, resp, r)
    requires E.Collected(out, Decoded(c, r.block.txs), c.wallet, PlaceOf(r.block, slot), c.tips, now)
    ensures ReadGives(c, slot, Rows(c, out))
  {}

  lemma ReadGivesRow()
    ensures ReadGives(SOURCES, 1, ROWS)
  {
    SecondBlock();
    SecondBlockReadable();
    ReadsSecondBlock();
    CollectedRow();
    RowIsGiven(SOURCES, 1, RESPONSE, Parsed(BLOCK), [ROW], 0);
  }

  /** The hypotheses of OneRowPerTransaction, all of them, with one transaction wanted. */
  lemma SomeRunQualifies()
    ensures EndToEnd.Sound(SOURCES) && |Wanted(SOURCES)| == 1
    ensures exists steps, w ::
              && P.Executes(1, P.BLANK, steps, w) && Faithful(SOURCES, 1, steps, w, {1})
              && w.proc == P.Ended(P.Finished(1, 0, 1))
  {
    SourcesAreSound();
    OneWanted();
    ReadGivesRow();
    PipelineReads.OneSlotRun(Readings(SOURCES), 1, ROWS);
    var steps, w :|
      && P.Executes(1, P.BLANK, steps, w) && PipelineReads.TrueSteps(1, P.BLANK, steps, w, Readings(SOURCES), {1})
      && w.proc == P.Ended(P.Finished(1, 0, 1));
    assert Faithful(SOURCES, 1, steps, w, {1});
  }
}
