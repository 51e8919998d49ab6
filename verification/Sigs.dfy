/** backfill/sigs.go: cursor paging over the wallet's history is a filter of all of it, marker or no marker. */
module Sigs {
  import opened Prelude

  const SLOTS_PER_EPOCH: nat := 432000
  const PAGE_SIZE: nat := 1000

  /** Go's uint64 arithmetic. */
  function Wrap(x: nat): Uint64 { x % TWO_64 }

  // ---- Epochs ----

  function EpochBounds(epoch: Uint64): (Uint64, Uint64) {
    var first := Wrap(epoch * SLOTS_PER_EPOCH);
    (first, Wrap(Wrap(first + SLOTS_PER_EPOCH) + TWO_64 - 1))
  }

  /** Up to the last epoch whose slots all fit 64 bits, an epoch's range is the slots that divide to it. */
  lemma EpochHoldsItsSlots(epoch: Uint64, slot: Uint64)
    requires epoch * SLOTS_PER_EPOCH + SLOTS_PER_EPOCH <= TWO_64
    ensures var (first, last) := EpochBounds(epoch); first <= slot <= last <==> slot / SLOTS_PER_EPOCH == epoch
  {
    var first := epoch * SLOTS_PER_EPOCH;
    assert EpochBounds(epoch) == (first, first + SLOTS_PER_EPOCH - 1);
    assert slot == slot / SLOTS_PER_EPOCH * SLOTS_PER_EPOCH + slot % SLOTS_PER_EPOCH;
  }

  /** The very next epoch's range is empty: its last slot wraps. */
  lemma NextEpochWraps()
    ensures var epoch := TWO_64 / SLOTS_PER_EPOCH; EpochBounds(epoch).0 > EpochBounds(epoch).1
    ensures TWO_64 / SLOTS_PER_EPOCH * SLOTS_PER_EPOCH < TWO_64
  {
    var epoch := TWO_64 / SLOTS_PER_EPOCH;
    assert epoch == 42700796466920;
  }

  /** Wrapped or not, the loop bound of seekMarker is never the largest uint64, so that loop ends. */
  lemma MarkerLoopEnds(epoch: Uint64)
    ensures Wrap(EpochBounds(epoch).1 + 64) != TWO_64 - 1
  {
    var k := epoch * SLOTS_PER_EPOCH / TWO_64;
    var (first, last) := EpochBounds(epoch);
    assert epoch * SLOTS_PER_EPOCH == k * TWO_64 + first;
    assert last == first + SLOTS_PER_EPOCH - 1 || last == first + SLOTS_PER_EPOCH - 1 - TWO_64;
  }

  // ---- The chain and the wallet's part of it ----

  type Sig = string

  const ZERO: Sig := ""

  /** One transaction; `mine` if the wallet appears in it. */
  datatype Tx = Tx(sig: Sig, slot: Uint64, mine: bool)

  datatype SigRef = SigRef(sig: Sig, slot: Uint64)

  /** The provider's ledger, newest first. */
  ghost predicate WellFormed(ledger: seq<Tx>) {
    && (forall i | 0 <= i < |ledger| :: ledger[i].sig != ZERO)
    && (forall i, j | 0 <= i < j < |ledger| :: ledger[i].sig != ledger[j].sig)
    && (forall i, j | 0 <= i < j < |ledger| :: ledger[i].slot >= ledger[j].slot)
  }

  function Mine(txs: seq<Tx>): seq<Tx> {
    if txs == [] then [] else (if txs[0].mine then [txs[0]] else []) + Mine(txs[1..])
  }

  /** `t` as a reference, if it is the wallet's and in the epoch. */
  function Ref(t: Tx, first: int, last: int): seq<SigRef> {
    if t.mine && first <= t.slot <= last then [SigRef(t.sig, t.slot)] else []
  }

  /** What discovery is for: the wallet's transactions of the epoch, each once, newest first. */
  function Wanted(txs: seq<Tx>, first: int, last: int): seq<SigRef> {
    if txs == [] then [] else Ref(txs[0], first, last) + Wanted(txs[1..], first, last)
  }

  lemma ConcatAssoc(a: seq<SigRef>, b: seq<SigRef>, c: seq<SigRef>)
    ensures a + (b + c) == (a + b) + c
  {
  }

  lemma {:induction false} WantedConcat(a: seq<Tx>, b: seq<Tx>, first: int, last: int)
    ensures Wanted(a + b, first, last) == Wanted(a, first, last) + Wanted(b, first, last)
  {
    if a == [] {
      assert a + b == b;
    } else {
      WantedConcat(a[1..], b, first, last);
      assert (a + b)[1..] == a[1..] + b;
      ConcatAssoc(Ref(a[0], first, last), Wanted(a[1..], first, last), Wanted(b, first, last));
    }
  }

  lemma {:induction false} NothingWanted(txs: seq<Tx>, first: int, last: int)
    requires forall i | 0 <= i < |txs| :: !txs[i].mine || txs[i].slot < first || last < txs[i].slot
    ensures Wanted(txs, first, last) == []
  {
    if txs != [] { NothingWanted(txs[1..], first, last); }
  }

  lemma {:induction false} OthersNotWanted(txs: seq<Tx>, first: int, last: int)
    ensures Wanted(Mine(txs), first, last) == Wanted(txs, first, last)
  {
    if txs != [] {
      OthersNotWanted(txs[1..], first, last);
      WantedConcat(if txs[0].mine then [txs[0]] else [], Mine(txs[1..]), first, last);
    }
  }

  // ---- getSignaturesForAddress ----

  /** Where the cursor leaves off: past the transaction it names, or the tip for the zero signature. */
  function After(ledger: seq<Tx>, before: Sig): (pos: nat)
    ensures pos <= |ledger|
    ensures pos > 0 ==> ledger[pos - 1].sig == before
  {
    if ledger == [] then 0
    else if ledger[|ledger| - 1].sig == before then |ledger|
    else After(ledger[..|ledger| - 1], before)
  }

  lemma {:induction false} AfterAt(ledger: seq<Tx>, i: nat)
    requires WellFormed(ledger) && i < |ledger|
    ensures After(ledger, ledger[i].sig) == i + 1
  {
    if i < |ledger| - 1 { AfterAt(ledger[..|ledger| - 1], i); }
  }

  lemma {:induction false} AfterZero(ledger: seq<Tx>)
    requires WellFormed(ledger)
    ensures After(ledger, ZERO) == 0
  {
    if ledger != [] { AfterZero(ledger[..|ledger| - 1]); }
  }

  /**
   One answer: the wallet's transactions older than the cursor, newest first, cut at a page size.  The
   provider picks how many, up to the cap; an empty page means there are none.
   */
  function Page(ledger: seq<Tx>, before: Sig, size: nat): seq<Tx> {
    var rest := Mine(ledger[After(ledger, before)..]);
    rest[..Min(|rest|, Max(1, Min(size, PAGE_SIZE)))]
  }

  /** A page ends at some transaction of the ledger, and is the wallet's transactions up to it. */
  lemma {:induction false} PageEnds(txs: seq<Tx>, n: nat) returns (end: nat)
    requires 0 < n <= |Mine(txs)|
    ensures 0 < end <= |txs| && Mine(txs[..end]) == Mine(txs)[..n] && txs[end - 1] == Mine(txs)[n - 1]
  {
    var here := if txs[0].mine then 1 else 0;
    if n == here {
      end := 1;
      assert txs[..1] == [txs[0]] && Mine([txs[0]]) == [txs[0]] + Mine([]);
    } else {
      var e := PageEnds(txs[1..], n - here);
      end := e + 1;
      assert txs[..end][1..] == txs[1..][..e];
    }
  }

  lemma {:induction false} MineMembers(txs: seq<Tx>)
    ensures forall t :: t in Mine(txs) <==> t in txs && t.mine
  {
    if txs != [] { MineMembers(txs[1..]); }
  }

  // ---- seekMarker ----

  /** A block's signatures in block order, that is oldest first. */
  function BlockSigs(ledger: seq<Tx>, slot: Uint64): seq<Sig> {
    if ledger == [] then []
    else BlockSigs(ledger[1..], slot) + if ledger[0].slot == slot then [ledger[0].sig] else []
  }

  lemma {:induction false} BlockSigsAreThere(ledger: seq<Tx>, slot: Uint64) returns (i: nat)
    requires BlockSigs(ledger, slot) != []
    ensures i < |ledger| && ledger[i].slot == slot && ledger[i].sig == BlockSigs(ledger, slot)[0]
  {
    if BlockSigs(ledger[1..], slot) == [] {
      i := 0;
    } else {
      var j := BlockSigsAreThere(ledger[1..], slot);
      i := j + 1;
    }
  }

  /** The block at `slot` gives a marker: it is there, the call succeeds, and it has signatures. */
  ghost predicate Marks(ledger: seq<Tx>, getBlock: Uint64 -> bool, slot: Uint64) {
    getBlock(slot) && BlockSigs(ledger, slot) != []
  }

  method SeekMarker(ledger: seq<Tx>, lastSlot: Uint64, getBlock: Uint64 -> bool) returns (marker: Option<Sig>)
    requires Wrap(lastSlot + 64) != TWO_64 - 1
    ensures marker.None? ==>
              forall slot: Uint64 | Wrap(lastSlot + 1) <= slot <= Wrap(lastSlot + 64) :: !Marks(ledger, getBlock, slot)
    ensures marker.Some? ==>
              exists slot: Uint64 :: Wrap(lastSlot + 1) <= slot <= Wrap(lastSlot + 64)
                && Marks(ledger, getBlock, slot) && BlockSigs(ledger, slot)[0] == marker.value
                && forall s: Uint64 | Wrap(lastSlot + 1) <= s < slot :: !Marks(ledger, getBlock, s)
  {
    var slot: int, limit: int := Wrap(lastSlot + 1), Wrap(lastSlot + 64);
    while slot <= limit
      invariant 0 <= slot <= limit + 1 || slot == Wrap(lastSlot + 1)
      invariant forall s: Uint64 | Wrap(lastSlot + 1) <= s < slot :: !Marks(ledger, getBlock, s)
      decreases limit - slot
    {
      if getBlock(slot) {
        var sigs := BlockSigs(ledger, slot);
        if |sigs| > 0 {
          assert Marks(ledger, getBlock, slot);
          return Some(sigs[0]);
        }
      }
      slot := slot + 1;
    }
    return None;
  }

  // ---- DiscoverSignatures ----

  /** Nothing wanted before the marker: its slot is past the epoch. */
  lemma MarkerIsPast(ledger: seq<Tx>, first: int, last: int, marker: Sig, slot: Uint64)
    requires WellFormed(ledger) && last < slot && BlockSigs(ledger, slot) != [] && BlockSigs(ledger, slot)[0] == marker
    ensures marker != ZERO && Wanted(ledger[..After(ledger, marker)], first, last) == []
  {
    var i := BlockSigsAreThere(ledger, slot);
    AfterAt(ledger, i);
    assert forall j | 0 <= j <= i :: ledger[j].slot >= ledger[i].slot;
    NothingWanted(ledger[..i + 1], first, last);
  }

  lemma WantedSplit(ledger: seq<Tx>, pos: nat, first: int, last: int)
    requires pos <= |ledger|
    ensures Wanted(ledger, first, last) == Wanted(ledger[..pos], first, last) + Wanted(ledger[pos..], first, last)
  {
    WantedConcat(ledger[..pos], ledger[pos..], first, last);
    assert ledger[..pos] + ledger[pos..] == ledger;
  }

  lemma WantedUpTo(ledger: seq<Tx>, pos: nat, end: nat, first: int, last: int)
    requires pos <= |ledger| && end <= |ledger[pos..]|
    ensures Wanted(ledger[..pos + end], first, last)
            == Wanted(ledger[..pos], first, last) + Wanted(Mine(ledger[pos..][..end]), first, last)
  {
    var upTo := ledger[..pos + end];
    WantedSplit(upTo, pos, first, last);
    assert upTo[..pos] == ledger[..pos] && upTo[pos..] == ledger[pos..][..end];
    OthersNotWanted(ledger[pos..][..end], first, last);
  }

  /** What is wanted up to where a page ends. */
  lemma PageWants(ledger: seq<Tx>, pos: nat, n: nat, first: int, last: int) returns (next: nat)
    requires WellFormed(ledger) && pos <= |ledger| && 0 < n <= |Mine(ledger[pos..])|
    ensures pos < next <= |ledger|
    ensures ledger[next - 1] == Mine(ledger[pos..])[n - 1] && After(ledger, ledger[next - 1].sig) == next
    ensures Wanted(ledger[..next], first, last)
            == Wanted(ledger[..pos], first, last) + Wanted(Mine(ledger[pos..])[..n], first, last)
  {
    var end := PageEnds(ledger[pos..], n);
    next := pos + end;
    AfterAt(ledger, next - 1);
    WantedUpTo(ledger, pos, end, first, last);
  }

  /** What the loop keeps: everything wanted down to the cursor has been found. */
  ghost predicate Found(ledger: seq<Tx>, before: Sig, first: int, last: int, out: seq<SigRef>) {
    out == Wanted(ledger[..After(ledger, before)], first, last)
  }

  /** A page moves the cursor to an older transaction and brings what is wanted up to there. */
  lemma PageAdvances(ledger: seq<Tx>, before: Sig, size: nat, first: int, last: int, out: seq<SigRef>)
    requires WellFormed(ledger) && Page(ledger, before, size) != []
    ensures var page := Page(ledger, before, size);
            var older := page[|page| - 1].sig;
            && After(ledger, before) < After(ledger, older) && older != ZERO
            && ledger[After(ledger, older) - 1] == page[|page| - 1]
            && (Found(ledger, before, first, last, out) ==>
                  Found(ledger, older, first, last, out + Wanted(page, first, last)))
  {
    var page, pos := Page(ledger, before, size), After(ledger, before);
    var n := |page|;
    assert page == Mine(ledger[pos..])[..n] && page[n - 1] == Mine(ledger[pos..])[n - 1];
    var next := PageWants(ledger, pos, n, first, last);
  }

  /** Newest first, and the wallet's. */
  ghost predicate Listed(txs: seq<Tx>) {
    && (forall i | 0 <= i < |txs| :: txs[i].mine)
    && forall i, j | 0 <= i < j < |txs| :: txs[i].slot >= txs[j].slot
  }

  lemma {:induction false} MineListed(txs: seq<Tx>)
    requires forall i, j | 0 <= i < j < |txs| :: txs[i].slot >= txs[j].slot
    ensures Listed(Mine(txs))
  {
    if txs != [] {
      MineListed(txs[1..]);
      MineMembers(txs[1..]);
      assert forall i | 0 <= i < |Mine(txs[1..])| :: Mine(txs[1..])[i] in Mine(txs[1..]);
    }
  }

  lemma LastIsOldest(page: seq<Tx>)
    requires Listed(page)
    ensures forall t | t in page :: page[|page| - 1].slot <= t.slot
  {}

  lemma CutListed(txs: seq<Tx>, n: nat)
    requires Listed(txs) && n <= |txs|
    ensures Listed(txs[..n])
  {}

  lemma PageListed(ledger: seq<Tx>, before: Sig, size: nat)
    requires WellFormed(ledger)
    ensures Listed(Page(ledger, before, size))
  {
    var rest := ledger[After(ledger, before)..];
    MineListed(rest);
    CutListed(Mine(rest), |Page(ledger, before, size)|);
  }

  /** The loop over one page. */
  method Collect(page: seq<Tx>, first: Uint64, last: Uint64, found: seq<SigRef>)
    returns (out: seq<SigRef>, reachedBefore: bool)
    requires forall i | 0 <= i < |page| :: page[i].mine
    ensures out == found + Wanted(page, first, last)
    ensures reachedBefore <==> exists t :: t in page && t.slot < first && t.slot <= last
  {
    out, reachedBefore := found, false;
    for i := 0 to |page|
      invariant out == found + Wanted(page[..i], first, last)
      invariant reachedBefore <==> exists t :: t in page[..i] && t.slot < first && t.slot <= last
    {
      var s := page[i];
      assert page[..i + 1] == page[..i] + [s];
      WantedConcat(page[..i], [s], first, last);
      if s.slot > last {
      } else if s.slot < first {
        reachedBefore := true;
      } else {
        out := out + [SigRef(s.sig, s.slot)];
      }
    }
    assert page[..|page|] == page;
  }

  lemma NoneLeft(rest: seq<Tx>, first: int, last: int)
    requires Mine(rest) == []
    ensures Wanted(rest, first, last) == []
  {
    OthersNotWanted(rest, first, last);
  }

  lemma RestIsOlder(ledger: seq<Tx>, pos: nat, first: int, last: int)
    requires WellFormed(ledger) && 0 < pos <= |ledger| && ledger[pos - 1].slot < first
    ensures Wanted(ledger[pos..], first, last) == []
  {
    var newest := ledger[pos - 1];
    assert forall i | pos <= i < |ledger| :: ledger[i].slot <= newest.slot;
    NothingWanted(ledger[pos..], first, last);
  }

  ghost predicate PastEpoch(ledger: seq<Tx>, before: Sig, first: int) {
    var pos := After(ledger, before);
    Mine(ledger[pos..]) == [] || (pos > 0 && ledger[pos - 1].slot < first)
  }

  /** Past the epoch's start, or with nothing of the wallet's left, there is no more to find. */
  lemma FoundAll(ledger: seq<Tx>, before: Sig, first: int, last: int)
    requires WellFormed(ledger) && PastEpoch(ledger, before, first)
    ensures Wanted(ledger[..After(ledger, before)], first, last) == Wanted(ledger, first, last)
  {
    var pos := After(ledger, before);
    WantedSplit(ledger, pos, first, last);
    if pos > 0 && ledger[pos - 1].slot < first {
      RestIsOlder(ledger, pos, first, last);
    } else {
      NoneLeft(ledger[pos..], first, last);
    }
  }

  /** One turn of the loop, on a page that is not empty; `newer` is what is wanted before the loop's start. */
  method Turn(
      ledger: seq<Tx>, before: Sig, size: nat, first: Uint64, last: Uint64, out: seq<SigRef>, ghost newer: seq<SigRef>)
    returns (found: seq<SigRef>, older: Sig, reachedBefore: bool)
    requires WellFormed(ledger) && Page(ledger, before, size) != []
    ensures After(ledger, before) < After(ledger, older)
    ensures Found(ledger, before, first, last, newer + out) ==> Found(ledger, older, first, last, newer + found)
    ensures reachedBefore ==> PastEpoch(ledger, older, first)
  {
    var sigs := Page(ledger, before, size);
    PageAdvances(ledger, before, size, first, last, newer + out);
    PageListed(ledger, before, size);
    LastIsOldest(sigs);
    found, reachedBefore := Collect(sigs, first, last, out);
    ConcatAssoc(newer, out, Wanted(sigs, first, last));
    older := sigs[|sigs| - 1].sig;
  }

  /** The paging loop.  `rpc(page)` is None when that call fails, else the page size the provider would choose. */
  method PageThrough(ledger: seq<Tx>, start: Sig, first: Uint64, last: Uint64, rpc: nat -> Option<nat>)
    returns (r: Option<seq<SigRef>>)
    requires WellFormed(ledger)
    ensures r.Some? ==>
              Wanted(ledger[..After(ledger, start)], first, last) + r.value == Wanted(ledger, first, last)
    ensures (forall page :: rpc(page).Some?) ==> r.Some?
  {
    var before, out: seq<SigRef>, page := start, [], 0;
    ghost var newer := Wanted(ledger[..After(ledger, start)], first, last);
    assert newer + out == newer;
    while true
      invariant Found(ledger, before, first, last, newer + out)
      decreases |ledger| - After(ledger, before)
    {
      var answer := rpc(page);
      if answer.None? { return None; }
      var sigs := Page(ledger, before, answer.value);
      if |sigs| == 0 {
        break;
      }
      page := page + 1;
      var reachedBefore;
      out, before, reachedBefore := Turn(ledger, before, answer.value, first, last, out, newer);
      if reachedBefore {
        break;
      }
    }
    FoundAll(ledger, before, first, last);
    return Some(out);
  }

  /**
   The epoch's last slot is the largest uint64, so that the marker loop starts over at slot 0, and finds one of
   the first blocks of the chain: a cursor behind everything the epoch has.
   */
  ghost predicate MarkedBehind(ledger: seq<Tx>, last: Uint64, getBlock: Uint64 -> bool) {
    last == TWO_64 - 1 && exists slot: Uint64 :: slot < 64 && Marks(ledger, getBlock, slot)
  }

  const TWO_57: int := 0x200_0000_0000_0000

  /** 3375 is odd, and 432000 is 3375 * 2^7. */
  lemma OddFactor(x: nat, t: nat)
    requires SLOTS_PER_EPOCH * x == t * TWO_64
    ensures x % TWO_57 == 0
  {
    assert 3375 * x == t * TWO_57;
    var k := 76519827268721103 * t - 1792 * x;
    assert x == k * TWO_57;
  }

  lemma WholeTurns(x: nat, k: nat)
    requires x == k * TWO_57
    ensures SLOTS_PER_EPOCH * x == 3375 * k * TWO_64
  {}

  /** The epochs that end there are every 2^57th, and all their slots are above the marker's. */
  lemma LastSlotIsLargest(epoch: Uint64)
    ensures EpochBounds(epoch).1 == TWO_64 - 1 <==> (epoch + 1) % TWO_57 == 0
    ensures EpochBounds(epoch).1 == TWO_64 - 1 ==> EpochBounds(epoch).0 == TWO_64 - SLOTS_PER_EPOCH
  {
    var k := epoch * SLOTS_PER_EPOCH / TWO_64;
    var (first, last) := EpochBounds(epoch);
    assert epoch * SLOTS_PER_EPOCH == k * TWO_64 + first;
    assert last == first + SLOTS_PER_EPOCH - 1 || last == first + SLOTS_PER_EPOCH - 1 - TWO_64;
    if last == TWO_64 - 1 { OddFactor(epoch + 1, k + 1); }
    if (epoch + 1) % TWO_57 == 0 {
      WholeTurns(epoch + 1, (epoch + 1) / TWO_57);
      LastOfTurns(first, k, 3375 * ((epoch + 1) / TWO_57));
    }
  }

  lemma LastOfTurns(first: nat, k: nat, turns: nat)
    requires first < TWO_64 && k * TWO_64 + first + SLOTS_PER_EPOCH == turns * TWO_64
    ensures first == TWO_64 - SLOTS_PER_EPOCH
  {
    assert (turns - k) * TWO_64 == first + SLOTS_PER_EPOCH;
    assert turns - k == 1;
  }

  /** Behind such a marker nothing is wanted, so all of it is in front. */
  lemma MarkerIsBehind(ledger: seq<Tx>, first: int, last: int, marker: Sig, slot: Uint64)
    requires WellFormed(ledger) && slot < first && BlockSigs(ledger, slot) != [] && BlockSigs(ledger, slot)[0] == marker
    ensures marker != ZERO && Wanted(ledger[..After(ledger, marker)], first, last) == Wanted(ledger, first, last)
  {
    var i := BlockSigsAreThere(ledger, slot);
    AfterAt(ledger, i);
    WantedSplit(ledger, i + 1, first, last);
    RestIsOlder(ledger, i + 1, first, last);
  }

  lemma NothingAfterAll(all: seq<SigRef>, more: seq<SigRef>)
    requires all + more == all
    ensures more == []
  {}

  /**
   The same list whether there is a marker or not, and whichever pages the provider cuts; but for an epoch
   that ends at the largest uint64, nothing as soon as one of the first blocks of the chain is the marker.
   */
  method DiscoverSignatures(ledger: seq<Tx>, epoch: Uint64, getBlock: Uint64 -> bool, rpc: nat -> Option<nat>)
    returns (r: Option<seq<SigRef>>)
    requires WellFormed(ledger)
    ensures var (first, last) := EpochBounds(epoch);
            r.Some? ==> r.value == if MarkedBehind(ledger, last, getBlock) then [] else Wanted(ledger, first, last)
    ensures (forall page :: rpc(page).Some?) ==> r.Some?
  {
    MarkerLoopEnds(epoch);
    LastSlotIsLargest(epoch);
    AfterZero(ledger);
    var (first, last) := EpochBounds(epoch);
    var marker := SeekMarker(ledger, last, getBlock);
    if marker.Some? {
      ghost var slot: Uint64 :| Wrap(last + 1) <= slot <= Wrap(last + 64) && Marks(ledger, getBlock, slot)
                                && BlockSigs(ledger, slot)[0] == marker.value;
      if last < TWO_64 - 1 { MarkerIsPast(ledger, first, last, marker.value, slot); }
      else { MarkerIsBehind(ledger, first, last, marker.value, slot); }
    }
    r := PageThrough(ledger, if marker.Some? then marker.value else ZERO, first, last, rpc);
    if r.Some? && MarkedBehind(ledger, last, getBlock) { NothingAfterAll(Wanted(ledger, first, last), r.value); }
  }
}
