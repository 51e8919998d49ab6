/**
 backfill/block.go, parseRegion and leaderFromRewards: one pass over the sections of a region, then assembly
 of the wanted block through its own links.
 */
module Region {
  import opened Prelude
  import opened Car

  const KIND_TRANSACTION: Byte := 0
  const KIND_ENTRY: Byte := 1
  const KIND_BLOCK: Byte := 2
  const KIND_REWARDS: Byte := 5

  datatype Entry = Entry(txs: seq<Cid>)
  datatype Block = Block(entries: seq<Cid>, rewards: Option<Cid>)
  datatype Reward = Reward(isFee: bool, pubkey: string)
  type TxNode = Bytes

  /** The third-party decoders: partial functions of a node's bytes. */
  datatype Decoders = Decoders(
    tx: Bytes -> Option<TxNode>, entry: Bytes -> Option<Entry>, block: Bytes -> Option<Block>,
    rewards: Bytes -> Option<seq<Reward>>, meta: TxNode -> Option<Bytes>)

  datatype ParsedTx = ParsedTx(node: TxNode, meta: Option<Bytes>)
  datatype ParsedBlock = ParsedBlock(leader: Option<string>, txCount: nat, txs: seq<ParsedTx>)

  /** Panicked is a slice-bounds panic, which only a length past the signed 64-bit range causes. */
  datatype Result = Parsed(block: ParsedBlock) | Error | Panicked

  // ---- The leader ----

  /** The block producer: the first fee reward, or the only reward there is. */
  ghost predicate IsLeader(rewards: seq<Reward>, leader: Option<string>) {
    if exists i :: 0 <= i < |rewards| && rewards[i].isFee then
      exists i :: 0 <= i < |rewards| && rewards[i].isFee && leader == Some(rewards[i].pubkey)
                  && forall j | 0 <= j < i :: !rewards[j].isFee
    else leader == if |rewards| == 1 then Some(rewards[0].pubkey) else None
  }

  function FirstFee(rewards: seq<Reward>): Option<string> {
    if rewards == [] then None
    else if rewards[0].isFee then Some(rewards[0].pubkey)
    else FirstFee(rewards[1..])
  }

  function SelectLeader(rewards: seq<Reward>): Option<string> {
    match FirstFee(rewards)
    case Some(p) => Some(p)
    case None => if |rewards| == 1 then Some(rewards[0].pubkey) else None
  }

  lemma {:induction false} FirstFeeIsFirst(rewards: seq<Reward>) returns (i: nat)
    ensures FirstFee(rewards).Some? ==>
              && i < |rewards| && rewards[i].isFee && FirstFee(rewards) == Some(rewards[i].pubkey)
              && forall j | 0 <= j < i :: !rewards[j].isFee
    ensures FirstFee(rewards).None? ==> forall j | 0 <= j < |rewards| :: !rewards[j].isFee
  {
    i := 0;
    if rewards != [] && !rewards[0].isFee {
      i := FirstFeeIsFirst(rewards[1..]);
      i := i + 1;
    }
  }

  lemma LeaderSelected(rewards: seq<Reward>)
    ensures IsLeader(rewards, SelectLeader(rewards))
  {
    var i := FirstFeeIsFirst(rewards);
  }

  method LeaderFromRewards(D: Decoders, raw: Bytes) returns (leader: Option<string>)
    ensures leader == Leader(D, raw)
    ensures raw != [] && D.rewards(raw).Some? ==> IsLeader(D.rewards(raw).value, leader)
    ensures raw == [] || D.rewards(raw).None? ==> leader == None
  {
    LeaderMeans(D, raw);
    if |raw| == 0 { return None; }
    match D.rewards(raw)
    case None => return None;
    case Some(rewards) =>
      for i := 0 to |rewards|
        invariant FirstFee(rewards) == FirstFee(rewards[i..])
      {
        if rewards[i].isFee { return Some(rewards[i].pubkey); }
      }
      return if |rewards| == 1 then Some(rewards[0].pubkey) else None;
  }

  function Leader(D: Decoders, raw: Bytes): Option<string> {
    if raw == [] || D.rewards(raw).None? then None else SelectLeader(D.rewards(raw).value)
  }

  lemma LeaderMeans(D: Decoders, raw: Bytes)
    ensures if raw != [] && D.rewards(raw).Some? then IsLeader(D.rewards(raw).value, Leader(D, raw))
            else Leader(D, raw) == None
  {
    if raw != [] && D.rewards(raw).Some? { LeaderSelected(D.rewards(raw).value); }
  }

  // ---- Naive resolution: every link looked up on its own ----

  function Table(secs: seq<Section>): map<Cid, Bytes> {
    if secs == [] then map[]
    else Table(secs[..|secs| - 1])[secs[|secs| - 1].cid := secs[|secs| - 1].data]
  }

  predicate OfKind(m: map<Cid, Bytes>, c: Cid, kind: Byte) {
    c in m && |m[c]| >= 2 && m[c][1] == kind
  }

  function ResolveEntry(D: Decoders, m: map<Cid, Bytes>, c: Cid): Option<Entry> {
    if OfKind(m, c, KIND_ENTRY) then D.entry(m[c]) else None
  }

  function ResolveTx(D: Decoders, m: map<Cid, Bytes>, c: Cid): Option<TxNode> {
    if OfKind(m, c, KIND_TRANSACTION) then D.tx(m[c]) else None
  }

  function ResolveLeader(D: Decoders, m: map<Cid, Bytes>, link: Option<Cid>): Option<string> {
    if link.Some? && OfKind(m, link.value, KIND_REWARDS) then Leader(D, m[link.value]) else None
  }

  function ResolveTxs(D: Decoders, m: map<Cid, Bytes>, links: seq<Cid>): seq<ParsedTx> {
    if links == [] then []
    else
      var k := |links| - 1;
      var node := ResolveTx(D, m, links[k]);
      ResolveTxs(D, m, links[..k]) + if node.Some? then [ParsedTx(node.value, D.meta(node.value))] else []
  }

  function CountTxs(D: Decoders, m: map<Cid, Bytes>, entries: seq<Cid>): nat {
    if entries == [] then 0
    else
      var k := |entries| - 1;
      var e := ResolveEntry(D, m, entries[k]);
      CountTxs(D, m, entries[..k]) + if e.Some? then |e.value.txs| else 0
  }

  function CollectTxs(D: Decoders, m: map<Cid, Bytes>, entries: seq<Cid>): seq<ParsedTx> {
    if entries == [] then []
    else
      var k := |entries| - 1;
      var e := ResolveEntry(D, m, entries[k]);
      CollectTxs(D, m, entries[..k]) + if e.Some? then ResolveTxs(D, m, e.value.txs) else []
  }

  /** The block as link-by-link lookups of its nodes in `m` give it. */
  function Resolve(D: Decoders, m: map<Cid, Bytes>, b: Block): ParsedBlock {
    ParsedBlock(ResolveLeader(D, m, b.rewards), CountTxs(D, m, b.entries), CollectTxs(D, m, b.entries))
  }

  // ---- One pass over the region ----

  datatype Tables = Tables(
    block: Option<Block>, entries: map<Cid, Entry>, txs: map<Cid, TxNode>, rewards: map<Cid, Bytes>)

  const NO_TABLES: Tables := Tables(None, map[], map[], map[])

  /** What visiting one section does; None is the error of a wanted block that does not decode. */
  function Visit(D: Decoders, want: Cid, t: Tables, s: Section): Option<Tables> {
    if |s.data| < 2 then Some(t)
    else if s.data[1] == KIND_TRANSACTION then
      var tx := D.tx(s.data);
      Some(if tx.Some? then t.(txs := t.txs[s.cid := tx.value]) else t)
    else if s.data[1] == KIND_ENTRY then
      var e := D.entry(s.data);
      Some(if e.Some? then t.(entries := t.entries[s.cid := e.value]) else t)
    else if s.data[1] == KIND_REWARDS then Some(t.(rewards := t.rewards[s.cid := s.data]))
    else if s.data[1] == KIND_BLOCK && s.cid == want then
      var b := D.block(s.data);
      if b.Some? then Some(t.(block := b)) else None
    else Some(t)
  }

  function VisitAll(D: Decoders, want: Cid, secs: seq<Section>): Option<Tables> {
    if secs == [] then Some(NO_TABLES)
    else
      var k := |secs| - 1;
      var t := VisitAll(D, want, secs[..k]);
      if t.None? then None else Visit(D, want, t.value, secs[k])
  }

  function FoundTxs(D: Decoders, t: Tables, links: seq<Cid>): seq<ParsedTx> {
    if links == [] then []
    else
      var k := |links| - 1;
      FoundTxs(D, t, links[..k]) +
      if links[k] in t.txs then [ParsedTx(t.txs[links[k]], D.meta(t.txs[links[k]]))] else []
  }

  function FoundCount(t: Tables, entries: seq<Cid>): nat {
    if entries == [] then 0
    else
      var k := |entries| - 1;
      FoundCount(t, entries[..k]) + if entries[k] in t.entries then |t.entries[entries[k]].txs| else 0
  }

  function FoundAll(D: Decoders, t: Tables, entries: seq<Cid>): seq<ParsedTx> {
    if entries == [] then []
    else
      var k := |entries| - 1;
      FoundAll(D, t, entries[..k]) +
      if entries[k] in t.entries then FoundTxs(D, t, t.entries[entries[k]].txs) else []
  }

  function FoundLeader(D: Decoders, t: Tables, b: Block): Option<string> {
    if b.rewards.Some? then Leader(D, if b.rewards.value in t.rewards then t.rewards[b.rewards.value] else []) else None
  }

  /** parseRegion as a function of the walk. */
  function Parse(P: CidParser, D: Decoders, buf: Bytes, want: Cid): Result {
    var w := Walk(P, buf, 0);
    var t := VisitAll(D, want, w.visited);
    if t.None? || w.end.Bad? then Error
    else if w.end.Panics? then Panicked
    else if t.value.block.None? then Error
    else
      var b := t.value.block.value;
      Parsed(ParsedBlock(FoundLeader(D, t.value, b), FoundCount(t.value, b.entries), FoundAll(D, t.value, b.entries)))
  }

  lemma {:induction false} FailedVisitStays(D: Decoders, want: Cid, a: seq<Section>, b: seq<Section>)
    requires VisitAll(D, want, a).None?
    ensures VisitAll(D, want, a + b).None?
  {
    if b == [] {
      assert a + b == a;
    } else {
      var k := |b| - 1;
      assert (a + b)[..|a + b| - 1] == a + b[..k];
      FailedVisitStays(D, want, a, b[..k]);
    }
  }

  method Append(D: Decoders, t: Tables, links: seq<Cid>, txs: seq<ParsedTx>) returns (out: seq<ParsedTx>)
    ensures out == txs + FoundTxs(D, t, links)
  {
    out := txs;
    for i := 0 to |links|
      invariant out == txs + FoundTxs(D, t, links[..i])
    {
      assert links[..i + 1][..i] == links[..i];
      if links[i] in t.txs {
        out := out + [ParsedTx(t.txs[links[i]], D.meta(t.txs[links[i]]))];
      }
    }
    assert links[..|links|] == links;
  }

  method Assemble(D: Decoders, t: Tables, b: Block) returns (out: ParsedBlock)
    ensures out == ParsedBlock(FoundLeader(D, t, b), FoundCount(t, b.entries), FoundAll(D, t, b.entries))
  {
    var leader: Option<string> := None;
    if b.rewards.Some? {
      leader := LeaderFromRewards(D, if b.rewards.value in t.rewards then t.rewards[b.rewards.value] else []);
    }
    var txCount, txs := 0, [];
    for i := 0 to |b.entries|
      invariant txCount == FoundCount(t, b.entries[..i]) && txs == FoundAll(D, t, b.entries[..i])
    {
      assert b.entries[..i + 1][..i] == b.entries[..i];
      if b.entries[i] in t.entries {
        txCount := txCount + |t.entries[b.entries[i]].txs|;
        txs := Append(D, t, t.entries[b.entries[i]].txs, txs);
      }
    }
    assert b.entries[..|b.entries|] == b.entries;
    out := ParsedBlock(leader, txCount, txs);
  }

  /** The loop has walked over `done` to `pos`, and visiting it gave `t`. */
  ghost predicate Reached(P: CidParser, D: Decoders, buf: Bytes, want: Cid, done: seq<Section>, pos: nat, t: Tables) {
    WalksTo(P, buf, 0, done, pos) && VisitAll(D, want, done) == Some(t)
  }

  lemma ReachedTake(P: CidParser, D: Decoders, buf: Bytes, want: Cid, done: seq<Section>, pos: nat, t: Tables)
    requires Reached(P, D, buf, want, done, pos, t) && pos < |buf| && TakeOne(P, buf, pos).Take?
    ensures var turn := TakeOne(P, buf, pos);
            match Visit(D, want, t, turn.sec)
            case Some(t') => Reached(P, D, buf, want, done + [turn.sec], turn.next, t')
            case None => Parse(P, D, buf, want) == Error
  {
    var turn := TakeOne(P, buf, pos);
    var done' := done + [turn.sec];
    WalkOn(P, buf, done, pos);
    assert done'[..|done'| - 1] == done;
    if VisitAll(D, want, done').None? { FailedVisitStays(D, want, done', Walk(P, buf, turn.next).visited); }
  }

  lemma ReachedStop(P: CidParser, D: Decoders, buf: Bytes, want: Cid, done: seq<Section>, pos: nat, t: Tables)
    requires Reached(P, D, buf, want, done, pos, t) && pos < |buf| && TakeOne(P, buf, pos).Stop?
    ensures Parse(P, D, buf, want) == if TakeOne(P, buf, pos).end.Panics? then Panicked else Error
  {
    assert done + [] == done;
    assert Walk(P, buf, pos) == Walked([], TakeOne(P, buf, pos).end);
  }

  lemma ReachedEnd(P: CidParser, D: Decoders, buf: Bytes, want: Cid, done: seq<Section>, t: Tables)
    requires Reached(P, D, buf, want, done, |buf|, t)
    ensures Walk(P, buf, 0) == Walked(done, Finished)
  {
    assert done + [] == done;
  }

  /** The walk and the visits in one loop, as the callback runs them. */
  method ParseRegion(P: CidParser, D: Decoders, buf: Bytes, want: Cid) returns (r: Result)
    ensures r == Parse(P, D, buf, want)
  {
    ghost var done: seq<Section> := [];
    var t := NO_TABLES;
    var pos := 0;
    assert [] + Walk(P, buf, 0).visited == Walk(P, buf, 0).visited;
    while pos < |buf|
      invariant pos <= |buf| && Reached(P, D, buf, want, done, pos, t)
    {
      match TakeOne(P, buf, pos)
      case Stop(end) =>
        ReachedStop(P, D, buf, want, done, pos, t);
        return if end.Panics? then Panicked else Error;
      case Take(sec, next) =>
        ReachedTake(P, D, buf, want, done, pos, t);
        var v := Visit(D, want, t, sec);
        if v.None? { return Error; }
        t, done, pos := v.value, done + [sec], next;
    }
    ReachedEnd(P, D, buf, want, done, t);
    if t.block.None? { return Error; }
    var b := Assemble(D, t, t.block.value);
    return Parsed(b);
  }
}
