/**
 backfill/block.go, anchor and ReadBlock, against an epoch archive: one contiguous read, anchored past an
 earlier block node, gives what resolving every link through the whole archive gives.
 */
module BlockReader {
  import opened Prelude
  import opened Car
  import opened Region
  import opened RegionProps

  const MAX_REGION_BYTES: nat := 134217728  // 128 << 20
  const MAX_SKIP_BACK: nat := 200

  // ---- The archive ----

  /** The sections of one slot, children first, its Block node last, as the repository's own README lays them out. */
  datatype Group = Group(slot: nat, secs: seq<Section>)

  /** `trailer` is whatever follows the last block: the subset and epoch nodes. */
  datatype Archive = Archive(header: Bytes, groups: seq<Group>, trailer: seq<Section>)

  function Flat(groups: seq<Group>): seq<Section> {
    if groups == [] then [] else Flat(groups[..|groups| - 1]) + groups[|groups| - 1].secs
  }

  function AllSections(a: Archive): seq<Section> { Flat(a.groups) + a.trailer }

  function CarBytes(a: Archive): Bytes { a.header + Encode(AllSections(a)) }

  function BlockCid(g: Group): Cid
    requires g.secs != []
  {
    g.secs[|g.secs| - 1].cid
  }

  /** Where the byte after group `i` lies, counted so that `EndOf(a, 0)` is the end of the header. */
  function EndOf(a: Archive, i: nat): nat
    requires i <= |a.groups|
  {
    |a.header| + |Encode(Flat(a.groups[..i]))|
  }

  /** Nodes of a block that are in the archive at all are in the block's own group. */
  ghost predicate ChildrenInGroup(D: Decoders, a: Archive, g: Group) {
    var all := Table(AllSections(a));
    g in a.groups && g.secs != [] && WantedBlock(D, all, BlockCid(g)).Some? ==>
      forall c | Refers(D, all, WantedBlock(D, all, BlockCid(g)).value, c) && c in all :: c in Table(g.secs)
  }

  ghost predicate SlotsAscend(a: Archive) { forall i, j :: InOrder(a, i, j) }

  ghost predicate InOrder(a: Archive, i: int, j: int) {
    0 <= i < j < |a.groups| ==> a.groups[i].slot < a.groups[j].slot
  }

  ghost predicate SoundIn(P: CidParser, a: Archive, s: Section) { s in AllSections(a) ==> Sound(P, s) }

  ghost predicate WellFormed(P: CidParser, D: Decoders, a: Archive) {
    && SelfDelimiting(P)
    && (forall s :: SoundIn(P, a, s))
    && |CarBytes(a)| < TWO_63
    && CidDetermined(AllSections(a))
    && SlotsAscend(a)
    && (forall g | g in a.groups :: g.secs != [])
    && forall g :: ChildrenInGroup(D, a, g)
  }

  // ---- The two local indexes, either of which may fail to answer ----

  datatype Indexes = Indexes(slotToCid: map<nat, Cid>, cidToOffset: map<Cid, (nat, nat)>)

  /** Group `i` is the slot's own, and the index names its block node. */
  ghost predicate Indexed(a: Archive, ix: Indexes, slot: nat, i: nat)
    requires slot in ix.slotToCid
  {
    i < |a.groups| && a.groups[i].slot == slot && Names(a, i, ix.slotToCid[slot])
  }

  ghost predicate Names(a: Archive, i: nat, cid: Cid)
    requires i < |a.groups|
  {
    a.groups[i].secs != [] && BlockCid(a.groups[i]) == cid
  }

  /** Asked for another slot, the index names the block node of some group before `slot`. */
  ghost predicate NamesEarlier(a: Archive, ix: Indexes, slot: nat, other: nat, i: nat)
    requires other in ix.slotToCid
  {
    i < |a.groups| && a.groups[i].slot < slot && Names(a, i, ix.slotToCid[other])
  }

  ghost predicate Located(a: Archive, ix: Indexes, i: nat)
    requires i < |a.groups|
  {
    a.groups[i].secs != [] && BlockCid(a.groups[i]) in ix.cidToOffset ==>
      ix.cidToOffset[BlockCid(a.groups[i])].0 + ix.cidToOffset[BlockCid(a.groups[i])].1 == EndOf(a, i + 1)
  }

  /**
   What reading `slot` needs of the answers, where there are any: its own block node for the slot, any
   earlier block's node for an earlier slot, and for those nodes where their sections end.
   */
  ghost predicate Consistent(a: Archive, ix: Indexes, slot: nat) {
    && (slot in ix.slotToCid ==> exists i: nat :: Indexed(a, ix, slot, i))
    && (forall t | t < slot && t in ix.slotToCid :: exists i: nat :: NamesEarlier(a, ix, slot, t, i))
    && forall i | 0 <= i < |a.groups| :: Located(a, ix, i)
  }

  /** Where the block node of `slot` ends, when both indexes answer. */
  function NodeEnd(ix: Indexes, slot: nat): Option<nat> {
    if slot in ix.slotToCid && ix.slotToCid[slot] in ix.cidToOffset then
      Some(ix.cidToOffset[ix.slotToCid[slot]].0 + ix.cidToOffset[ix.slotToCid[slot]].1)
    else None
  }

  /** `at` is the nearest earlier slot, at most MAX_SKIP_BACK back, whose block node resolves. */
  ghost predicate IsAnchor(ix: Indexes, slot: nat, at: nat) {
    && at < slot <= at + MAX_SKIP_BACK && NodeEnd(ix, at).Some?
    && forall t | at < t < slot :: NodeEnd(ix, t).None?
  }

  ghost predicate NoAnchor(ix: Indexes, slot: nat) {
    forall t: nat | t < slot <= t + MAX_SKIP_BACK :: NodeEnd(ix, t).None?
  }

  method Anchor(ix: Indexes, slot: nat) returns (start: Option<nat>, ghost at: nat)
    ensures start.Some? ==> IsAnchor(ix, slot, at) && start == NodeEnd(ix, at)
    ensures start.None? <==> NoAnchor(ix, slot)
  {
    var back := 1;
    at := 0;
    while back <= MAX_SKIP_BACK && back <= slot
      invariant 1 <= back <= slot + 1
      invariant forall t | slot - back < t < slot :: NodeEnd(ix, t).None?
      decreases slot + 1 - back
    {
      at := slot - back;
      if slot - back in ix.slotToCid {
        var prev := ix.slotToCid[slot - back];
        if prev in ix.cidToOffset {
          return Some(ix.cidToOffset[prev].0 + ix.cidToOffset[prev].1), at;
        }
      }
      back := back + 1;
    }
    return None, at;
  }

  /** The slot's own block node, as the archive and complete indexes would resolve it. */
  function NaiveBlock(D: Decoders, a: Archive, ix: Indexes, slot: nat): Result
    requires slot in ix.slotToCid
  {
    Naive(D, Table(AllSections(a)), ix.slotToCid[slot])
  }

  // ---- Regions between two group ends ----

  lemma {:induction false} FlatConcat(x: seq<Group>, y: seq<Group>)
    ensures Flat(x + y) == Flat(x) + Flat(y)
  {
    if y == [] {
      assert x + y == x;
    } else {
      var k := |y| - 1;
      assert (x + y)[..|x + y| - 1] == x + y[..k];
      FlatConcat(x, y[..k]);
    }
  }

  lemma {:induction false} FlatMembers(groups: seq<Group>)
    ensures forall s :: s in Flat(groups) <==> exists g :: g in groups && s in g.secs
  {
    if groups != [] {
      var k := |groups| - 1;
      FlatMembers(groups[..k]);
      assert forall g :: g in groups <==> g in groups[..k] || g == groups[k];
    }
  }

  /** The bytes of groups `i` to `j - 1`. */
  function RegionOf(a: Archive, i: nat, j: nat): Bytes
    requires i <= j <= |a.groups|
  {
    Encode(Flat(a.groups[i..j]))
  }

  lemma CutAt(a: Archive, j: nat)
    requires j <= |a.groups|
    ensures Encode(AllSections(a)) == Encode(Flat(a.groups[..j])) + Encode(Flat(a.groups[j..]) + a.trailer)
  {
    var front, back := a.groups[..j], a.groups[j..];
    assert a.groups == front + back;
    FlatConcat(front, back);
    assert AllSections(a) == Flat(front) + (Flat(back) + a.trailer);
    EncodeConcat(Flat(front), Flat(back) + a.trailer);
  }

  lemma CutFront(a: Archive, i: nat, j: nat)
    requires i <= j <= |a.groups|
    ensures Encode(Flat(a.groups[..j])) == Encode(Flat(a.groups[..i])) + RegionOf(a, i, j)
  {
    assert a.groups[..j] == a.groups[..i] + a.groups[i..j];
    FlatConcat(a.groups[..i], a.groups[i..j]);
    EncodeConcat(Flat(a.groups[..i]), Flat(a.groups[i..j]));
  }

  lemma FramedInside(h: Bytes, x: Bytes, y: Bytes, z: Bytes)
    ensures FramedAt(h + ((x + y) + z), |h| + |x|, y)
  {}

  lemma FramedSame(buf: Bytes, at: nat, x: Bytes, y: Bytes)
    requires FramedAt(buf, at, x) && FramedAt(buf, at, y) && |x| == |y|
    ensures x == y
  {
    assert forall k | 0 <= k < |x| :: x[k] == buf[at + k];
  }

  lemma RegionLength(a: Archive, i: nat, j: nat)
    requires i <= j <= |a.groups|
    ensures EndOf(a, i) + |RegionOf(a, i, j)| == EndOf(a, j) <= |CarBytes(a)|
  {
    CutAt(a, j);
    CutFront(a, i, j);
  }

  /** They lie between the end of group `i - 1` and the end of group `j - 1`. */
  lemma RegionBytes(a: Archive, i: nat, j: nat)
    requires i <= j <= |a.groups|
    ensures EndOf(a, i) + |RegionOf(a, i, j)| == EndOf(a, j) <= |CarBytes(a)|
    ensures FramedAt(CarBytes(a), EndOf(a, i), RegionOf(a, i, j))
  {
    RegionLength(a, i, j);
    CutAt(a, j);
    CutFront(a, i, j);
    FramedInside(a.header, Encode(Flat(a.groups[..i])), RegionOf(a, i, j), Encode(Flat(a.groups[j..]) + a.trailer));
  }

  /** The region's sections are some of the archive's, and include the last group's. */
  lemma RegionSections(a: Archive, i: nat, j: nat)
    requires i <= j < |a.groups|
    ensures forall s | s in Flat(a.groups[i..j + 1]) :: s in AllSections(a)
    ensures forall s | s in a.groups[j].secs :: s in Flat(a.groups[i..j + 1])
  {
    FlatMembers(a.groups[i..j + 1]);
    FlatMembers(a.groups);
    assert a.groups[i..j + 1][j - i] == a.groups[j];
    assert forall g | g in a.groups[i..j + 1] :: g in a.groups;
  }

  /** The walk of a region visits its sections, and no CID among them names two nodes. */
  lemma RegionWalks(P: CidParser, D: Decoders, a: Archive, i: nat, j: nat)
    requires WellFormed(P, D, a) && i <= j < |a.groups|
    ensures var secs := Flat(a.groups[i..j + 1]); Walk(P, RegionOf(a, i, j + 1), 0) == Walked(secs, Finished)
    ensures CidDetermined(Flat(a.groups[i..j + 1]))
  {
    var secs := Flat(a.groups[i..j + 1]);
    RegionLength(a, i, j + 1);
    RegionSections(a, i, j);
    forall s | s in secs ensures Sound(P, s) { assert SoundIn(P, a, s); }
    WalkEncode(P, secs);
    SomeDetermined(secs, AllSections(a));
  }

  lemma RegionBytesNaive(P: CidParser, D: Decoders, a: Archive, i: nat, j: nat, bytes: Bytes)
    requires WellFormed(P, D, a) && i <= j < |a.groups| && bytes == RegionOf(a, i, j + 1)
    ensures Parse(P, D, bytes, BlockCid(a.groups[j])) == Naive(D, Table(AllSections(a)), BlockCid(a.groups[j]))
  {
    RegionWalks(P, D, a, i, j);
    ParseIsNaive(P, D, bytes, BlockCid(a.groups[j]));
    RegionTable(P, D, a, i, j);
  }

  /** Parsing such a region for its last block gives the naive resolution over the whole archive. */
  lemma RegionIsNaive(P: CidParser, D: Decoders, a: Archive, i: nat, j: nat)
    requires WellFormed(P, D, a) && i <= j < |a.groups|
    ensures Parse(P, D, RegionOf(a, i, j + 1), BlockCid(a.groups[j]))
            == Naive(D, Table(AllSections(a)), BlockCid(a.groups[j]))
  {
    RegionBytesNaive(P, D, a, i, j, RegionOf(a, i, j + 1));
  }

  lemma RegionTable(P: CidParser, D: Decoders, a: Archive, i: nat, j: nat)
    requires WellFormed(P, D, a) && i <= j < |a.groups|
    ensures var secs := Flat(a.groups[i..j + 1]);
            Naive(D, Table(secs), BlockCid(a.groups[j])) == Naive(D, Table(AllSections(a)), BlockCid(a.groups[j]))
  {
    var g := a.groups[j];
    var want := BlockCid(g);
    var secs, all := Flat(a.groups[i..j + 1]), AllSections(a);
    RegionSections(a, i, j);
    SubTable(secs, all);
    SubTable(g.secs, secs);
    assert g.secs[|g.secs| - 1] in g.secs;
    TableHolds(g.secs);
    assert want in Table(secs) && Table(secs)[want] == Table(all)[want];
    var b := WantedBlock(D, Table(all), want);
    if b.Some? {
      assert ChildrenInGroup(D, a, g);
      assert Agree(D, Table(all), Table(secs), b.value);
      ResolveAgree(D, Table(all), Table(secs), b.value);
    }
  }

  lemma SubTable(part: seq<Section>, all: seq<Section>)
    requires CidDetermined(all) && forall s | s in part :: s in all
    ensures forall c | c in Table(part) :: c in Table(all) && Table(all)[c] == Table(part)[c]
    ensures CidDetermined(part)
  {
    SomeDetermined(part, all);
    TableHolds(part);
    TableHolds(all);
    forall c | c in Table(part) ensures c in Table(all) && Table(all)[c] == Table(part)[c] {
      assert Section(c, Table(part)[c]) in all;
    }
  }

  /** The slot's block node ends where the slot's group does. */
  lemma GroupOf(a: Archive, ix: Indexes, slot: nat) returns (i: nat)
    requires Consistent(a, ix, slot) && NodeEnd(ix, slot).Some?
    ensures Indexed(a, ix, slot, i) && NodeEnd(ix, slot) == Some(EndOf(a, i + 1))
  {
    i :| Indexed(a, ix, slot, i);
    assert Located(a, ix, i);
  }

  /** What resolves for an earlier slot ends where some earlier group does. */
  lemma EarlierGroup(a: Archive, ix: Indexes, slot: nat, at: nat) returns (i: nat)
    requires Consistent(a, ix, slot) && at < slot && NodeEnd(ix, at).Some?
    ensures NamesEarlier(a, ix, slot, at, i) && NodeEnd(ix, at) == Some(EndOf(a, i + 1))
  {
    i :| NamesEarlier(a, ix, slot, at, i);
    assert Located(a, ix, i);
  }

  lemma EarlierIsBefore(a: Archive, ix: Indexes, slot: nat, at: nat, i: nat, j: nat)
    requires SlotsAscend(a) && slot in ix.slotToCid && Indexed(a, ix, slot, j)
    requires at in ix.slotToCid && NamesEarlier(a, ix, slot, at, i)
    ensures i < j
  {
    EarlierGroupFirst(a, i, j);
  }

  /** The bytes of the archive between the ends of two groups are the region. */
  lemma BytesAreRegion(a: Archive, i: nat, j: nat, bytes: Bytes)
    requires i < j < |a.groups|
    requires FramedAt(CarBytes(a), EndOf(a, i + 1), bytes) && EndOf(a, i + 1) + |bytes| == EndOf(a, j + 1)
    ensures bytes == RegionOf(a, i + 1, j + 1)
  {
    RegionBytes(a, i + 1, j + 1);
    FramedSame(CarBytes(a), EndOf(a, i + 1), bytes, RegionOf(a, i + 1, j + 1));
  }

  lemma BetweenGroups(P: CidParser, D: Decoders, a: Archive, i: nat, j: nat, bytes: Bytes)
    requires WellFormed(P, D, a) && i < j < |a.groups|
    requires FramedAt(CarBytes(a), EndOf(a, i + 1), bytes) && EndOf(a, i + 1) + |bytes| == EndOf(a, j + 1)
    ensures Parse(P, D, bytes, BlockCid(a.groups[j])) == Naive(D, Table(AllSections(a)), BlockCid(a.groups[j]))
  {
    BytesAreRegion(a, i, j, bytes);
    RegionBytesNaive(P, D, a, i + 1, j, bytes);
  }

  /** What lies between an earlier block node and this slot's parses to the naive block. */
  lemma BetweenNodes(P: CidParser, D: Decoders, a: Archive, ix: Indexes, slot: nat, at: nat, bytes: Bytes)
    requires WellFormed(P, D, a) && Consistent(a, ix, slot) && at < slot
    requires NodeEnd(ix, slot).Some? && NodeEnd(ix, at).Some?
    requires FramedAt(CarBytes(a), NodeEnd(ix, at).value, bytes)
    requires NodeEnd(ix, at).value + |bytes| == NodeEnd(ix, slot).value
    ensures Parse(P, D, bytes, ix.slotToCid[slot]) == NaiveBlock(D, a, ix, slot)
  {
    var i := EarlierGroup(a, ix, slot, at);
    var j := GroupOf(a, ix, slot);
    EarlierIsBefore(a, ix, slot, at, i, j);
    BetweenGroups(P, D, a, i, j, bytes);
  }

  // ---- ReadRange ----

  /** What comes back for one ranged GET. */
  datatype Response = NoAnswer | Answer(status: nat, body: Bytes)

  /** 200 or 206, and a body with at least the bytes asked for. */
  predicate Served(n: nat, resp: Response) {
    resp.Answer? && (resp.status == 200 || resp.status == 206) && |resp.body| >= n
  }

  /** Exactly `n` bytes, the first of the body, whatever range it is of; nothing to read is no request. */
  method ReadRange(n: nat, resp: Response) returns (buf: Option<Bytes>)
    ensures buf.Some? <==> n == 0 || Served(n, resp)
    ensures buf.Some? <==> n == 0 || (resp.Answer? && resp.status in {200, 206} && |resp.body| >= n)
    ensures buf.Some? ==> |buf.value| == n && (n > 0 ==> buf.value <= resp.body)
  {
    if n == 0 { return Some([]); }
    if resp.NoAnswer? { return None; }
    if resp.status != 206 && resp.status != 200 { return None; }
    if |resp.body| < n { return None; }
    return Some(resp.body[..n]);
  }

  /** The server sends the range, or less of it. */
  ghost predicate Honours(car: Bytes, start: nat, n: nat, resp: Response) {
    Served(n, resp) ==> FramedAt(car, start, resp.body[..n])
  }

  /** The server ignores the range and answers 200 with the object from its start. */
  ghost predicate Ignores(car: Bytes, resp: Response) {
    resp.Answer? && resp.status == 200 && resp.body == car
  }

  /** What a server answers: 206 with the range, or 200 with the object from its start. */
  ghost predicate Answers(car: Bytes, start: nat, n: nat, resp: Response)
    requires start + n <= |car|
  {
    Ignores(car, resp) || resp == Answer(206, car[start..start + n])
  }

  /**
   Of such a server the bytes taken are right for every object of a size, exactly when the status is 206 or
   the range starts at the object's start: for any other range some object shows the difference.
   */
  lemma IgnoredRange(size: nat, start: nat, n: nat, status: nat)
    requires (status == 200 || status == 206) && 0 < n && start + n <= size
    ensures (forall car: Bytes, resp | |car| == size && Answers(car, start, n, resp) && resp.status == status ::
               Served(n, resp) && Honours(car, start, n, resp))
            <==> status == 206 || start == 0
  {
    if status == 200 && start > 0 {
      var car: Bytes := seq(size, i => if i == 0 then 1 else 0);
      var resp := Answer(200, car);
      assert Answers(car, start, n, resp);
      assert resp.body[..n][0] == 1 && car[start + 0] == 0;
      assert !Honours(car, start, n, resp);
    }
  }

  /** Two bytes, of which the second is asked for and the first comes back. */
  lemma IgnoredRangeInput()
    ensures Ignores([1, 2], Answer(200, [1, 2])) && Served(1, Answer(200, [1, 2]))
    ensures !Honours([1, 2], 1, 1, Answer(200, [1, 2]))
  {
    assert [1, 2][..1][0] == 1 && [1, 2][1 + 0] == 2;
  }

  // ---- ReadBlock ----

  predicate FitsRegion(start: nat, end: nat) { start < end && end - start <= MAX_REGION_BYTES }

  /** The slot's region starts past the block node that `at` resolves to, and a response of its size came. */
  ghost predicate ReadableFrom(ix: Indexes, slot: nat, resp: Response, at: nat) {
    && NodeEnd(ix, slot).Some? && IsAnchor(ix, slot, at)
    && FitsRegion(NodeEnd(ix, at).value, NodeEnd(ix, slot).value)
    && Served(NodeEnd(ix, slot).value - NodeEnd(ix, at).value, resp)
  }

  lemma AnchorUnique(ix: Indexes, slot: nat, at: nat)
    requires IsAnchor(ix, slot, at)
    ensures forall t | IsAnchor(ix, slot, t) :: t == at
  {}

  lemma NoAnchorUnreadable(ix: Indexes, slot: nat, resp: Response)
    requires NoAnchor(ix, slot)
    ensures forall at :: !ReadableFrom(ix, slot, resp, at)
  {
    forall t | IsAnchor(ix, slot, t) ensures false { assert NodeEnd(ix, t).None?; }
  }

  /** What ReadBlock returns: the parse of the bytes that came for its region, if it may read one, else an error. */
  ghost predicate Reads(P: CidParser, D: Decoders, ix: Indexes, slot: nat, resp: Response, r: Result) {
    && ((forall at :: !ReadableFrom(ix, slot, resp, at)) ==> r.Error?)
    && forall at | ReadableFrom(ix, slot, resp, at) ::
         r == Parse(P, D, resp.body[..NodeEnd(ix, slot).value - NodeEnd(ix, at).value], ix.slotToCid[slot])
  }

  lemma NothingRead(P: CidParser, D: Decoders, ix: Indexes, slot: nat, resp: Response)
    requires forall at :: !ReadableFrom(ix, slot, resp, at)
    ensures Reads(P, D, ix, slot, resp, Error)
  {}

  lemma RegionRead(P: CidParser, D: Decoders, ix: Indexes, slot: nat, resp: Response, at: nat, r: Result)
    requires ReadableFrom(ix, slot, resp, at) && forall t :: ReadableFrom(ix, slot, resp, t) ==> t == at
    requires r == Parse(P, D, resp.body[..NodeEnd(ix, slot).value - NodeEnd(ix, at).value], ix.slotToCid[slot])
    ensures Reads(P, D, ix, slot, resp, r)
  {
    forall t | ReadableFrom(ix, slot, resp, t)
      ensures r == Parse(P, D, resp.body[..NodeEnd(ix, slot).value - NodeEnd(ix, t).value], ix.slotToCid[slot])
    {
      assert t == at;
    }
  }

  /** With the one anchor there is, only the region's size and the response are left to fail. */
  lemma AnchoredAt(ix: Indexes, slot: nat, resp: Response, at: nat)
    requires NodeEnd(ix, slot).Some? && IsAnchor(ix, slot, at)
    ensures forall t :: ReadableFrom(ix, slot, resp, t) ==> t == at
  {
    AnchorUnique(ix, slot, at);
  }

  method ReadBlock(P: CidParser, D: Decoders, ix: Indexes, slot: nat, resp: Response) returns (r: Result)
    ensures Reads(P, D, ix, slot, resp, r)
  {
    if slot !in ix.slotToCid { return Error; }
    var want := ix.slotToCid[slot];
    if want !in ix.cidToOffset { return Error; }
    var end := ix.cidToOffset[want].0 + ix.cidToOffset[want].1;
    var start, at := Anchor(ix, slot);
    if start.None? {
      NoAnchorUnreadable(ix, slot, resp);
      return Error;
    }
    AnchoredAt(ix, slot, resp, at);
    r := ReadRegion(P, D, ix, slot, resp, start.value, end, at);
  }

  /** The region between the anchor and the slot's own block node, read as one range. */
  method ReadRegion(
      P: CidParser, D: Decoders, ix: Indexes, slot: nat, resp: Response, start: nat, end: nat, ghost at: nat)
    returns (r: Result)
    requires IsAnchor(ix, slot, at) && NodeEnd(ix, at) == Some(start) && NodeEnd(ix, slot) == Some(end)
    requires forall t :: ReadableFrom(ix, slot, resp, t) ==> t == at
    ensures Reads(P, D, ix, slot, resp, r)
  {
    if end <= start || end - start > MAX_REGION_BYTES {
      NothingRead(P, D, ix, slot, resp);
      return Error;
    }
    var buf := ReadRange(end - start, resp);
    if buf.None? {
      NothingRead(P, D, ix, slot, resp);
      return Error;
    }
    assert buf.value == resp.body[..end - start];
    r := ParseRegion(P, D, buf.value, ix.slotToCid[slot]);
    RegionRead(P, D, ix, slot, resp, at, r);
  }

  /** The response is the server's to the one range that reading `slot` asks for. */
  ghost predicate HonoursSlot(car: Bytes, ix: Indexes, slot: nat, resp: Response) {
    forall at | IsAnchor(ix, slot, at) && NodeEnd(ix, slot).Some? && NodeEnd(ix, at).value < NodeEnd(ix, slot).value ::
      Honours(car, NodeEnd(ix, at).value, NodeEnd(ix, slot).value - NodeEnd(ix, at).value, resp)
  }

  lemma ReadableRefines(
      P: CidParser, D: Decoders, a: Archive, ix: Indexes, slot: nat, resp: Response, r: Result, at: nat)
    requires WellFormed(P, D, a) && Consistent(a, ix, slot) && ReadableFrom(ix, slot, resp, at)
    requires HonoursSlot(CarBytes(a), ix, slot, resp) && Reads(P, D, ix, slot, resp, r)
    ensures r == NaiveBlock(D, a, ix, slot)
  {
    var n := NodeEnd(ix, slot).value - NodeEnd(ix, at).value;
    var bytes := resp.body[..n];
    assert FramedAt(CarBytes(a), NodeEnd(ix, at).value, bytes) by {
      assert Honours(CarBytes(a), NodeEnd(ix, at).value, n, resp);
    }
    BetweenNodes(P, D, a, ix, slot, at, bytes);
  }

  lemma NaiveNeverPanics(D: Decoders, a: Archive, ix: Indexes, slot: nat)
    requires slot in ix.slotToCid
    ensures !NaiveBlock(D, a, ix, slot).Panicked?
  {}

  /**
   Block-read refinement.  For any well-formed archive, any partial but truthful indexes and a server that
   honours ranges, what ReadBlock returns is exactly what resolving every link of the slot's block through
   the whole archive gives, whichever earlier block node it anchors on; and an error when there is none in
   reach, the region exceeds the cap, or an index or the server does not answer.
   */
  lemma ReadBlockRefines(
      P: CidParser, D: Decoders, a: Archive, ix: Indexes, slot: nat, resp: Response, r: Result)
    requires WellFormed(P, D, a) && Consistent(a, ix, slot)
    requires HonoursSlot(CarBytes(a), ix, slot, resp) && Reads(P, D, ix, slot, resp, r)
    ensures if exists at :: ReadableFrom(ix, slot, resp, at)
            then slot in ix.slotToCid && r == NaiveBlock(D, a, ix, slot)
            else r.Error?
    ensures !r.Panicked?
  {
    if at :| ReadableFrom(ix, slot, resp, at) {
      ReadableRefines(P, D, a, ix, slot, resp, r, at);
      NaiveNeverPanics(D, a, ix, slot);
    }
  }

  /** The leader of a block whose rewards node is `link`, if that node is there and decodes. */
  ghost predicate LeaderOf(D: Decoders, m: map<Cid, Bytes>, link: Option<Cid>, leader: Option<string>) {
    if link.Some? && link.value in m && |m[link.value]| >= 2 && m[link.value][1] == 5 && D.rewards(m[link.value]).Some?
    then IsLeader(D.rewards(m[link.value]).value, leader)
    else leader == None
  }

  /** The leader that ReadBlock reports is the one of the block's own rewards, through the whole archive. */
  lemma ReadBlockLeader(P: CidParser, D: Decoders, a: Archive, ix: Indexes, slot: nat, resp: Response, r: Result)
    requires WellFormed(P, D, a) && Consistent(a, ix, slot)
    requires HonoursSlot(CarBytes(a), ix, slot, resp) && Reads(P, D, ix, slot, resp, r) && r.Parsed?
    ensures slot in ix.slotToCid
    ensures var m := Table(AllSections(a));
            var b := WantedBlock(D, m, ix.slotToCid[slot]);
            b.Some? && LeaderOf(D, m, b.value.rewards, r.block.leader)
  {
    ReadBlockRefines(P, D, a, ix, slot, resp, r);
    var m := Table(AllSections(a));
    NaiveLeader(D, m, ix.slotToCid[slot]);
  }

  lemma NaiveLeader(D: Decoders, m: map<Cid, Bytes>, want: Cid)
    requires Naive(D, m, want).Parsed?
    ensures WantedBlock(D, m, want).Some?
    ensures LeaderOf(D, m, WantedBlock(D, m, want).value.rewards, Naive(D, m, want).block.leader)
  {
    var link := WantedBlock(D, m, want).value.rewards;
    if link.Some? && link.value in m { LeaderMeans(D, m[link.value]); }
  }

  /** And each transaction is one of the archive's transaction nodes, with its own metadata. */
  lemma ReadBlockTxs(P: CidParser, D: Decoders, a: Archive, ix: Indexes, slot: nat, resp: Response, r: Result)
    requires WellFormed(P, D, a) && Consistent(a, ix, slot)
    requires HonoursSlot(CarBytes(a), ix, slot, resp) && Reads(P, D, ix, slot, resp, r) && r.Parsed?
    ensures forall tx | tx in r.block.txs :: IsTxOf(D, Table(AllSections(a)), tx)
  {
    ReadBlockRefines(P, D, a, ix, slot, resp, r);
    NaiveTxs(D, Table(AllSections(a)), ix.slotToCid[slot]);
  }

  lemma NaiveTxs(D: Decoders, m: map<Cid, Bytes>, want: Cid)
    requires Naive(D, m, want).Parsed?
    ensures forall tx | tx in Naive(D, m, want).block.txs :: IsTxOf(D, m, tx)
  {
    CollectedAreTxs(D, m, WantedBlock(D, m, want).value.entries);
  }

  /**
   When there is anything to read: both indexes answer for the slot, one of the 200 slots before it resolves, and
   past the nearest that does lies a region that is not empty nor above 128 MiB, and is served in full.
   */
  lemma ReadableWhen(ix: Indexes, slot: nat, resp: Response, at: nat)
    ensures ReadableFrom(ix, slot, resp, at) <==>
            && slot in ix.slotToCid && ix.slotToCid[slot] in ix.cidToOffset
            && at in ix.slotToCid && ix.slotToCid[at] in ix.cidToOffset
            && at < slot <= at + 200
            && (forall t | at < t < slot :: t !in ix.slotToCid || ix.slotToCid[t] !in ix.cidToOffset)
            && var (o, n) := ix.cidToOffset[ix.slotToCid[slot]];
               var (p, m) := ix.cidToOffset[ix.slotToCid[at]];
               && p + m < o + n <= p + m + 134217728
               && resp.Answer? && (resp.status == 200 || resp.status == 206) && |resp.body| >= o + n - (p + m)
  {
    assert forall t :: NodeEnd(ix, t).None? <==> t !in ix.slotToCid || ix.slotToCid[t] !in ix.cidToOffset;
  }

  /** With truthful indexes the region is never empty nor outside the archive: only the cap and the anchor can fail. */
  lemma RegionInArchive(P: CidParser, D: Decoders, a: Archive, ix: Indexes, slot: nat, at: nat)
    requires WellFormed(P, D, a) && Consistent(a, ix, slot) && NodeEnd(ix, slot).Some? && IsAnchor(ix, slot, at)
    ensures NodeEnd(ix, at).value < NodeEnd(ix, slot).value <= |CarBytes(a)|
  {
    var j := GroupOf(a, ix, slot);
    var i := EarlierGroup(a, ix, slot, at);
    RegionSpan(a, i, j);
  }

  lemma RegionSpan(a: Archive, i: nat, j: nat)
    requires SlotsAscend(a) && i < |a.groups| && j < |a.groups| && a.groups[i].slot < a.groups[j].slot
    requires a.groups[j].secs != []
    ensures EndOf(a, i + 1) < EndOf(a, j + 1) <= |CarBytes(a)|
  {
    EarlierGroupFirst(a, i, j);
    RegionNotEmpty(a, i + 1, j);
    RegionLength(a, i + 1, j + 1);
  }

  lemma EarlierGroupFirst(a: Archive, i: nat, j: nat)
    requires SlotsAscend(a) && i < |a.groups| && j < |a.groups| && a.groups[i].slot < a.groups[j].slot
    ensures i < j
  {
    assert InOrder(a, j, i);
  }

  lemma RegionNotEmpty(a: Archive, i: nat, j: nat)
    requires i <= j < |a.groups| && a.groups[j].secs != []
    ensures RegionOf(a, i, j + 1) != []
  {
    RegionSections(a, i, j);
    assert a.groups[j].secs[0] in Flat(a.groups[i..j + 1]);
  }
}
