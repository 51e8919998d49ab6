/**
 What one pass over a region computes: the same block as looking up every link of the wanted block on its
 own, whatever other sections the region holds and in whatever order.
 */
module RegionProps {
  import opened Prelude
  import opened Car
  import opened Region

  /** A CID determines the bytes it names. */
  ghost predicate CidDetermined(secs: seq<Section>) { forall s, t :: SameBytes(secs, s, t) }

  ghost predicate SameBytes(secs: seq<Section>, s: Section, t: Section) {
    s in secs && t in secs && s.cid == t.cid ==> s.data == t.data
  }

  lemma SomeDetermined(part: seq<Section>, all: seq<Section>)
    requires CidDetermined(all) && forall s | s in part :: s in all
    ensures CidDetermined(part)
  {
    forall s, t ensures SameBytes(part, s, t) { assert SameBytes(all, s, t); }
  }

  lemma {:induction false} TableHolds(secs: seq<Section>)
    requires CidDetermined(secs)
    ensures forall s | s in secs :: s.cid in Table(secs) && Table(secs)[s.cid] == s.data
    ensures forall c | c in Table(secs) :: Section(c, Table(secs)[c]) in secs
  {
    if secs != [] {
      var k := |secs| - 1;
      SomeDetermined(secs[..k], secs);
      TableHolds(secs[..k]);
      forall s | s in secs ensures s.cid in Table(secs) && Table(secs)[s.cid] == s.data {
        assert SameBytes(secs, s, secs[k]);
      }
      assert secs[k] == Section(secs[k].cid, secs[k].data);
    }
  }

  // ---- The tables filled by the callback are the table of nodes, split by kind ----

  ghost predicate EntriesMatch(D: Decoders, m: map<Cid, Bytes>, t: Tables) {
    forall c :: ResolveEntry(D, m, c) == if c in t.entries then Some(t.entries[c]) else None
  }

  ghost predicate TxsMatch(D: Decoders, m: map<Cid, Bytes>, t: Tables) {
    forall c :: ResolveTx(D, m, c) == if c in t.txs then Some(t.txs[c]) else None
  }

  ghost predicate RewardsMatch(m: map<Cid, Bytes>, t: Tables) {
    forall c :: OfKind(m, c, KIND_REWARDS) == (c in t.rewards) && (c in t.rewards ==> t.rewards[c] == m[c])
  }

  predicate Undecodable(D: Decoders, m: map<Cid, Bytes>, want: Cid) {
    OfKind(m, want, KIND_BLOCK) && D.block(m[want]).None?
  }

  function WantedBlock(D: Decoders, m: map<Cid, Bytes>, want: Cid): Option<Block> {
    if OfKind(m, want, KIND_BLOCK) then D.block(m[want]) else None
  }

  ghost predicate Matches(D: Decoders, want: Cid, m: map<Cid, Bytes>, v: Option<Tables>) {
    && (v.None? <==> Undecodable(D, m, want))
    && (v.Some? ==> EntriesMatch(D, m, v.value) && TxsMatch(D, m, v.value) && RewardsMatch(m, v.value)
                    && v.value.block == WantedBlock(D, m, want))
  }

  /** One more section keeps the match, when its CID names no other bytes. */
  lemma MatchesStep(D: Decoders, want: Cid, m: map<Cid, Bytes>, t: Tables, s: Section)
    requires Matches(D, want, m, Some(t)) && (s.cid in m ==> m[s.cid] == s.data)
    ensures Matches(D, want, m[s.cid := s.data], Visit(D, want, t, s))
  {
    MatchBlock(D, want, m, t, s);
    if Visit(D, want, t, s).Some? {
      MatchEntries(D, want, m, t, s);
      MatchTxs(D, want, m, t, s);
      MatchRewards(D, want, m, t, s);
    }
  }

  lemma MatchBlock(D: Decoders, want: Cid, m: map<Cid, Bytes>, t: Tables, s: Section)
    requires !Undecodable(D, m, want) && t.block == WantedBlock(D, m, want)
    requires s.cid in m ==> m[s.cid] == s.data
    ensures var v := Visit(D, want, t, s);
            && (v.None? <==> Undecodable(D, m[s.cid := s.data], want))
            && (v.Some? ==> v.value.block == WantedBlock(D, m[s.cid := s.data], want))
  {}

  lemma MatchRewards(D: Decoders, want: Cid, m: map<Cid, Bytes>, t: Tables, s: Section)
    requires RewardsMatch(m, t) && (s.cid in m ==> m[s.cid] == s.data) && Visit(D, want, t, s).Some?
    ensures RewardsMatch(m[s.cid := s.data], Visit(D, want, t, s).value)
  {
    assert s.cid !in m ==> !OfKind(m, s.cid, KIND_REWARDS);
  }

  lemma MatchEntries(D: Decoders, want: Cid, m: map<Cid, Bytes>, t: Tables, s: Section)
    requires EntriesMatch(D, m, t) && (s.cid in m ==> m[s.cid] == s.data) && Visit(D, want, t, s).Some?
    ensures EntriesMatch(D, m[s.cid := s.data], Visit(D, want, t, s).value)
  {
    var m' := m[s.cid := s.data];
    var t' := Visit(D, want, t, s).value;
    forall c ensures ResolveEntry(D, m', c) == if c in t'.entries then Some(t'.entries[c]) else None {
      assert ResolveEntry(D, m, c) == if c in t.entries then Some(t.entries[c]) else None;
    }
  }

  lemma MatchTxs(D: Decoders, want: Cid, m: map<Cid, Bytes>, t: Tables, s: Section)
    requires TxsMatch(D, m, t) && (s.cid in m ==> m[s.cid] == s.data) && Visit(D, want, t, s).Some?
    ensures TxsMatch(D, m[s.cid := s.data], Visit(D, want, t, s).value)
  {
    var m' := m[s.cid := s.data];
    var t' := Visit(D, want, t, s).value;
    forall c ensures ResolveTx(D, m', c) == if c in t'.txs then Some(t'.txs[c]) else None {
      assert ResolveTx(D, m, c) == if c in t.txs then Some(t.txs[c]) else None;
    }
  }

  lemma UndecodableStays(D: Decoders, want: Cid, m: map<Cid, Bytes>, s: Section)
    requires Undecodable(D, m, want) && (s.cid in m ==> m[s.cid] == s.data)
    ensures Undecodable(D, m[s.cid := s.data], want)
  {}

  lemma {:induction false} VisitsMatch(D: Decoders, want: Cid, secs: seq<Section>)
    requires CidDetermined(secs)
    ensures Matches(D, want, Table(secs), VisitAll(D, want, secs))
  {
    if secs != [] {
      var k := |secs| - 1;
      SomeDetermined(secs[..k], secs);
      VisitsMatch(D, want, secs[..k]);
      TableHolds(secs[..k]);
      var m := Table(secs[..k]);
      if secs[k].cid in m { assert SameBytes(secs, Section(secs[k].cid, m[secs[k].cid]), secs[k]); }
      match VisitAll(D, want, secs[..k])
      case Some(t) => MatchesStep(D, want, m, t, secs[k]);
      case None => UndecodableStays(D, want, m, secs[k]);
    }
  }

  lemma {:induction false} FoundTxsResolve(D: Decoders, m: map<Cid, Bytes>, t: Tables, links: seq<Cid>)
    requires TxsMatch(D, m, t)
    ensures FoundTxs(D, t, links) == ResolveTxs(D, m, links)
  {
    if links != [] { FoundTxsResolve(D, m, t, links[..|links| - 1]); }
  }

  lemma {:induction false} FoundAllResolve(D: Decoders, m: map<Cid, Bytes>, t: Tables, entries: seq<Cid>)
    requires EntriesMatch(D, m, t) && TxsMatch(D, m, t)
    ensures FoundCount(t, entries) == CountTxs(D, m, entries)
    ensures FoundAll(D, t, entries) == CollectTxs(D, m, entries)
  {
    if entries != [] {
      var k := |entries| - 1;
      FoundAllResolve(D, m, t, entries[..k]);
      var e := ResolveEntry(D, m, entries[k]);
      if e.Some? { FoundTxsResolve(D, m, t, e.value.txs); }
    }
  }

  /** What parseRegion should give for a region whose nodes are `m`. */
  function Naive(D: Decoders, m: map<Cid, Bytes>, want: Cid): Result {
    var b := WantedBlock(D, m, want);
    if b.None? then Error else Parsed(Resolve(D, m, b.value))
  }

  /** One pass gives what link-by-link lookups among the region's own nodes give. */
  lemma ParseIsNaive(P: CidParser, D: Decoders, buf: Bytes, want: Cid)
    requires Walk(P, buf, 0).end.Finished? && CidDetermined(Walk(P, buf, 0).visited)
    ensures Parse(P, D, buf, want) == Naive(D, Table(Walk(P, buf, 0).visited), want)
  {
    var secs := Walk(P, buf, 0).visited;
    var m := Table(secs);
    VisitsMatch(D, want, secs);
    var v := VisitAll(D, want, secs);
    if v.Some? && v.value.block.Some? {
      FoundAllResolve(D, m, v.value, v.value.block.value.entries);
    }
  }

  // ---- Only the wanted block's own nodes matter ----

  /** A node the block refers to, directly or through one of its entries. */
  ghost predicate Refers(D: Decoders, m: map<Cid, Bytes>, b: Block, c: Cid) {
    || c in b.entries
    || b.rewards == Some(c)
    || exists e :: e in b.entries && ResolveEntry(D, m, e).Some? && c in ResolveEntry(D, m, e).value.txs
  }

  predicate Same(m: map<Cid, Bytes>, m': map<Cid, Bytes>, c: Cid) {
    (c in m <==> c in m') && (c in m && c in m' ==> m[c] == m'[c])
  }

  ghost predicate Agree(D: Decoders, m: map<Cid, Bytes>, m': map<Cid, Bytes>, b: Block) {
    forall c | Refers(D, m, b, c) :: Same(m, m', c)
  }

  lemma {:induction false} TxsAgree(D: Decoders, m: map<Cid, Bytes>, m': map<Cid, Bytes>, links: seq<Cid>)
    requires forall c | c in links :: Same(m, m', c)
    ensures ResolveTxs(D, m, links) == ResolveTxs(D, m', links)
  {
    if links != [] {
      var k := |links| - 1;
      assert Same(m, m', links[k]) by { assert links[k] in links; }
      TxsAgree(D, m, m', links[..k]);
    }
  }

  lemma {:induction false} EntriesAgree(D: Decoders, m: map<Cid, Bytes>, m': map<Cid, Bytes>, entries: seq<Cid>)
    requires forall e | e in entries ::
               Same(m, m', e) && (ResolveEntry(D, m, e).Some? ==>
                 forall c | c in ResolveEntry(D, m, e).value.txs :: Same(m, m', c))
    ensures CountTxs(D, m, entries) == CountTxs(D, m', entries)
    ensures CollectTxs(D, m, entries) == CollectTxs(D, m', entries)
  {
    if entries != [] {
      var k := |entries| - 1;
      assert entries[k] in entries;
      EntriesAgree(D, m, m', entries[..k]);
      var e := ResolveEntry(D, m, entries[k]);
      assert ResolveEntry(D, m', entries[k]) == e by { assert Same(m, m', entries[k]); }
      if e.Some? { TxsAgree(D, m, m', e.value.txs); }
    }
  }

  lemma ResolveAgree(D: Decoders, m: map<Cid, Bytes>, m': map<Cid, Bytes>, b: Block)
    requires Agree(D, m, m', b)
    ensures Resolve(D, m, b) == Resolve(D, m', b)
  {
    forall e | e in b.entries
      ensures Same(m, m', e) && (ResolveEntry(D, m, e).Some? ==>
                forall c | c in ResolveEntry(D, m, e).value.txs :: Same(m, m', c))
    {
      assert Refers(D, m, b, e);
      if ResolveEntry(D, m, e).Some? {
        forall c | c in ResolveEntry(D, m, e).value.txs ensures Same(m, m', c) {
          assert Refers(D, m, b, c);
        }
      }
    }
    EntriesAgree(D, m, m', b.entries);
    if b.rewards.Some? { assert Refers(D, m, b, b.rewards.value); }
  }

  /** Order and repetition of the sections do not matter: the nodes are a set. */
  lemma OrderIndependent(P: CidParser, D: Decoders, buf: Bytes, buf': Bytes, want: Cid)
    requires Walk(P, buf, 0).end.Finished? && Walk(P, buf', 0).end.Finished?
    requires CidDetermined(Walk(P, buf, 0).visited)
    requires forall s :: s in Walk(P, buf, 0).visited <==> s in Walk(P, buf', 0).visited
    ensures Parse(P, D, buf, want) == Parse(P, D, buf', want)
  {
    var secs, secs' := Walk(P, buf, 0).visited, Walk(P, buf', 0).visited;
    SomeDetermined(secs', secs);
    ParseIsNaive(P, D, buf, want);
    ParseIsNaive(P, D, buf', want);
    TableHolds(secs);
    TableHolds(secs');
    assert Table(secs) == Table(secs') by {
      forall c | c in Table(secs) ensures c in Table(secs') && Table(secs)[c] == Table(secs')[c] {
        assert Section(c, Table(secs)[c]) in secs';
      }
      forall c | c in Table(secs') ensures c in Table(secs) {
        assert Section(c, Table(secs')[c]) in secs;
      }
    }
  }

  /** No section of `others` brings a node that the wanted block refers to and `own` lacks. */
  ghost predicate NoneMissing(D: Decoders, others: seq<Section>, own: seq<Section>, want: Cid) {
    want in Table(own) &&
    (WantedBlock(D, Table(own), want).Some? ==>
       forall s | s in others && Refers(D, Table(own), WantedBlock(D, Table(own), want).value, s.cid) ::
         s.cid in Table(own))
  }

  lemma NaiveIgnoresOthers(D: Decoders, others: seq<Section>, own: seq<Section>, want: Cid)
    requires CidDetermined(others + own) && NoneMissing(D, others, own, want)
    ensures Naive(D, Table(others + own), want) == Naive(D, Table(own), want)
  {
    var all, m := Table(others + own), Table(own);
    TablesNest(others, own);
    var b := WantedBlock(D, m, want);
    assert WantedBlock(D, all, want) == b;
    if b.Some? {
      SomeDetermined(own, others + own);
      TableHolds(others + own);
      TableHolds(own);
      assert Agree(D, m, all, b.value);
      ResolveAgree(D, m, all, b.value);
    }
  }

  /** Neighbour independence: sections put in front of a region that bring no missing node change nothing. */
  lemma NeighbourIndependent(P: CidParser, D: Decoders, others: seq<Section>, own: seq<Section>, want: Cid)
    requires SelfDelimiting(P) && CidDetermined(others + own) && NoneMissing(D, others, own, want)
    requires (forall s | s in others + own :: Sound(P, s)) && |Encode(others + own)| < TWO_63
    ensures Parse(P, D, Encode(others + own), want) == Parse(P, D, Encode(own), want)
  {
    EncodeConcat(others, own);
    WalkEncode(P, others + own);
    WalkEncode(P, own);
    SomeDetermined(own, others + own);
    ParseIsNaive(P, D, Encode(others + own), want);
    ParseIsNaive(P, D, Encode(own), want);
    NaiveIgnoresOthers(D, others, own, want);
  }

  lemma TablesNest(others: seq<Section>, own: seq<Section>)
    requires CidDetermined(others + own)
    ensures forall c | c in Table(own) :: c in Table(others + own) && Table(others + own)[c] == Table(own)[c]
  {
    SomeDetermined(own, others + own);
    TableHolds(own);
    TableHolds(others + own);
    forall c | c in Table(own) ensures c in Table(others + own) && Table(others + own)[c] == Table(own)[c] {
      assert Section(c, Table(own)[c]) in others + own;
    }
  }

  // ---- What a transaction in the block is ----

  /** A transaction node among `m`, with its own metadata. */
  ghost predicate IsTxOf(D: Decoders, m: map<Cid, Bytes>, tx: ParsedTx) {
    && tx.meta == D.meta(tx.node)
    && exists c :: c in m && |m[c]| >= 2 && m[c][1] == 0 && D.tx(m[c]) == Some(tx.node)
  }

  lemma {:induction false} ResolvedAreTxs(D: Decoders, m: map<Cid, Bytes>, links: seq<Cid>)
    ensures forall tx | tx in ResolveTxs(D, m, links) :: IsTxOf(D, m, tx)
  {
    if links != [] {
      var k := |links| - 1;
      ResolvedAreTxs(D, m, links[..k]);
      var node := ResolveTx(D, m, links[k]);
      if node.Some? { assert IsTxOf(D, m, ParsedTx(node.value, D.meta(node.value))); }
    }
  }

  lemma {:induction false} CollectedAreTxs(D: Decoders, m: map<Cid, Bytes>, entries: seq<Cid>)
    ensures forall tx | tx in CollectTxs(D, m, entries) :: IsTxOf(D, m, tx)
  {
    if entries != [] {
      var k := |entries| - 1;
      CollectedAreTxs(D, m, entries[..k]);
      var e := ResolveEntry(D, m, entries[k]);
      if e.Some? { ResolvedAreTxs(D, m, e.value.txs); }
    }
  }

  // ---- Counting ----

  ghost predicate AllTxsResolve(D: Decoders, m: map<Cid, Bytes>, links: seq<Cid>) {
    forall c | c in links :: ResolveTx(D, m, c).Some?
  }

  lemma {:induction false} TxsAtMost(D: Decoders, m: map<Cid, Bytes>, links: seq<Cid>)
    ensures |ResolveTxs(D, m, links)| <= |links|
    ensures |ResolveTxs(D, m, links)| == |links| <==> AllTxsResolve(D, m, links)
  {
    if links != [] {
      var k := |links| - 1;
      TxsAtMost(D, m, links[..k]);
      assert forall c :: c in links <==> c in links[..k] || c == links[k];
    }
  }

  ghost predicate FullyResolved(D: Decoders, m: map<Cid, Bytes>, entries: seq<Cid>) {
    forall e | e in entries && ResolveEntry(D, m, e).Some? :: AllTxsResolve(D, m, ResolveEntry(D, m, e).value.txs)
  }

  /** At most TxCount transactions are returned, and all of them exactly when every referenced one resolves. */
  lemma {:induction false} TxsAgainstCount(D: Decoders, m: map<Cid, Bytes>, entries: seq<Cid>)
    ensures |CollectTxs(D, m, entries)| <= CountTxs(D, m, entries)
    ensures |CollectTxs(D, m, entries)| == CountTxs(D, m, entries) <==> FullyResolved(D, m, entries)
  {
    if entries != [] {
      var k := |entries| - 1;
      TxsAgainstCount(D, m, entries[..k]);
      var e := ResolveEntry(D, m, entries[k]);
      if e.Some? { TxsAtMost(D, m, e.value.txs); }
      assert forall c :: c in entries <==> c in entries[..k] || c == entries[k];
    }
  }
}
